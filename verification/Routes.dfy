/** The edge paths of the type graph that repeat no type, listed in depth-first order. */
module Routes {
  import opened Sequences
  import opened TypeGraph

  /** A path from a type, as the position of each edge among its type's edges. */
  type Route = seq<nat>

  // ----- What a route is -----------------------------------------------------------------

  /** The edges that leave each type. */
  type Adjacency = map<TypeId, seq<Edge>>

  /** Every edge leads to a type. */
  predicate ClosedUnder(adj: Adjacency) {
    forall t, k :: t in adj && 0 <= k < |adj[t]| ==> adj[t][k].target in adj
  }

  function EdgeAt(adj: Adjacency, tid: TypeId, k: nat): (e: Edge)
    requires ClosedUnder(adj) && tid in adj && k < |adj[tid]|
    ensures e.target in adj
  {
    adj[tid][k]
  }

  predicate Follows(adj: Adjacency, tid: TypeId, r: Route)
    requires ClosedUnder(adj) && tid in adj
    decreases r
  {
    r == [] || (r[0] < |adj[tid]| && Follows(adj, EdgeAt(adj, tid, r[0]).target, r[1..]))
  }

  /** The types along a route, its first one included. */
  function TypesAlong(adj: Adjacency, tid: TypeId, r: Route): seq<TypeId>
    requires ClosedUnder(adj) && tid in adj && Follows(adj, tid, r)
    decreases r
  {
    if r == [] then [tid]
    else [tid] + TypesAlong(adj, EdgeAt(adj, tid, r[0]).target, r[1..])
  }

  function StepsAlong(adj: Adjacency, tid: TypeId, r: Route): seq<string>
    requires ClosedUnder(adj) && tid in adj && Follows(adj, tid, r)
    decreases r
  {
    if r == [] then []
    else
      var e := EdgeAt(adj, tid, r[0]);
      [e.step] + StepsAlong(adj, e.target, r[1..])
  }

  /** A path along edges that visits no type twice and none of those to avoid. */
  ghost predicate Simple(adj: Adjacency, tid: TypeId, avoid: set<TypeId>, r: Route)
    requires ClosedUnder(adj) && tid in adj
  {
    && Follows(adj, tid, r)
    && Distinct(TypesAlong(adj, tid, r))
    && forall t :: t in TypesAlong(adj, tid, r) ==> t !in avoid
  }

  /** The name of a path: a slash before every step. */
  function Render(path: seq<string>): string {
    if path == [] then "" else Render(path[..|path| - 1]) + "/" + path[|path| - 1]
  }

  type Entry = (TypeId, string)

  /** What a route from tid is recorded as, when path leads to tid. */
  function EntryOf(adj: Adjacency, tid: TypeId, path: seq<string>, r: Route): Entry
    requires ClosedUnder(adj) && tid in adj && Follows(adj, tid, r)
  {
    var types := TypesAlong(adj, tid, r);
    (types[|types| - 1], Render(path + StepsAlong(adj, tid, r)))
  }

  // ----- All routes, in depth-first order ---------------------------------------------------

  function Through(k: nat, rs: seq<Route>): seq<Route> {
    if rs == [] then [] else Through(k, rs[..|rs| - 1]) + [[k] + rs[|rs| - 1]]
  }

  function AllRoutes(adj: Adjacency, tid: TypeId, avoid: set<TypeId>): seq<Route>
    requires ClosedUnder(adj) && tid in adj
    decreases adj.Keys - avoid, 0
  {
    if tid in avoid then []
    else
      assert adj.Keys - (avoid + {tid}) < adj.Keys - avoid;
      [[]] + RoutesVia(adj, tid, avoid + {tid}, |adj[tid]|)
  }

  /** The routes that begin with one of the first n edges. */
  function RoutesVia(adj: Adjacency, tid: TypeId, avoid: set<TypeId>, n: nat): seq<Route>
    requires ClosedUnder(adj) && tid in adj && n <= |adj[tid]|
    decreases adj.Keys - avoid, n + 1
  {
    if n == 0 then []
    else
      RoutesVia(adj, tid, avoid, n - 1)
      + Through(n - 1, AllRoutes(adj, EdgeAt(adj, tid, n - 1).target, avoid))
  }

  // ----- They are exactly the simple routes --------------------------------------------------

  lemma {:induction false} ThroughAt(k: nat, rs: seq<Route>)
    ensures |Through(k, rs)| == |rs| && forall i :: 0 <= i < |rs| ==> Through(k, rs)[i] == [k] + rs[i]
  {
    if rs != [] {
      ThroughAt(k, rs[..|rs| - 1]);
    }
  }

  lemma ThroughMembers(k: nat, rs: seq<Route>, r: Route)
    ensures r in Through(k, rs) <==> r != [] && r[0] == k && r[1..] in rs
  {
    ThroughAt(k, rs);
    if r in Through(k, rs) {
      var i :| 0 <= i < |rs| && Through(k, rs)[i] == r;
      assert r[1..] == rs[i];
    }
    if r != [] && r[0] == k && r[1..] in rs {
      var i :| 0 <= i < |rs| && rs[i] == r[1..];
      assert Through(k, rs)[i] == r;
    }
  }

  ghost predicate FirstEdge(adj: Adjacency, tid: TypeId, avoid: set<TypeId>, n: nat, r: Route)
    requires ClosedUnder(adj) && tid in adj && n <= |adj[tid]|
  {
    r != [] && r[0] < n && r[1..] in AllRoutes(adj, EdgeAt(adj, tid, r[0]).target, avoid)
  }

  lemma {:induction false} RoutesViaMembers(adj: Adjacency, tid: TypeId, avoid: set<TypeId>, n: nat, r: Route)
    requires ClosedUnder(adj) && tid in adj && n <= |adj[tid]|
    ensures r in RoutesVia(adj, tid, avoid, n) <==> FirstEdge(adj, tid, avoid, n, r)
    decreases n
  {
    if n > 0 {
      RoutesViaMembers(adj, tid, avoid, n - 1, r);
      ThroughMembers(n - 1, AllRoutes(adj, EdgeAt(adj, tid, n - 1).target, avoid), r);
    }
  }

  lemma SimpleStep(adj: Adjacency, tid: TypeId, avoid: set<TypeId>, r: Route)
    requires ClosedUnder(adj) && tid in adj && r != [] && r[0] < |adj[tid]|
    ensures Simple(adj, tid, avoid, r) <==>
            tid !in avoid && Simple(adj, EdgeAt(adj, tid, r[0]).target, avoid + {tid}, r[1..])
  {
    var target := EdgeAt(adj, tid, r[0]).target;
    if Follows(adj, tid, r) {
      PrependType(tid, TypesAlong(adj, target, r[1..]), avoid);
    }
  }

  lemma PrependType(tid: TypeId, rest: seq<TypeId>, avoid: set<TypeId>)
    ensures (Distinct([tid] + rest) && forall t :: t in [tid] + rest ==> t !in avoid) <==>
            (tid !in avoid && Distinct(rest) && forall t :: t in rest ==> t !in avoid + {tid})
  {
    var all := [tid] + rest;
    assert forall t :: t in all <==> t == tid || t in rest;
    assert forall i :: 0 <= i < |rest| ==> all[i + 1] == rest[i];
    if Distinct(all) {
      forall t | t in rest
        ensures t != tid
      {
        var i :| 0 <= i < |rest| && rest[i] == t;
        assert all[0] != all[i + 1];
      }
      forall i, j | 0 <= i < j < |rest|
        ensures rest[i] != rest[j]
      {
        assert all[i + 1] != all[j + 1];
      }
    }
    if Distinct(rest) && tid !in rest {
      forall i, j | 0 <= i < j < |all|
        ensures all[i] != all[j]
      {
        assert all[j] == rest[j - 1] && (i > 0 ==> all[i] == rest[i - 1]);
      }
    }
  }

  /** A route is listed exactly when it is a path along edges that repeats no type. */
  lemma {:induction false} ListedIffSimple(adj: Adjacency, tid: TypeId, avoid: set<TypeId>, r: Route)
    requires ClosedUnder(adj) && tid in adj
    ensures r in AllRoutes(adj, tid, avoid) <==> Simple(adj, tid, avoid, r)
    decreases r
  {
    if tid in avoid {
      if Follows(adj, tid, r) {
        assert TypesAlong(adj, tid, r)[0] == tid;
      }
    } else {
      var n := |adj[tid]|;
      RoutesViaMembers(adj, tid, avoid + {tid}, n, r);
      if r != [] && r[0] < n {
        SimpleStep(adj, tid, avoid, r);
        ListedIffSimple(adj, EdgeAt(adj, tid, r[0]).target, avoid + {tid}, r[1..]);
      }
    }
  }

  // ----- They come in order, so none comes twice ----------------------------------------------

  /** Depth first: a route before its continuations, an earlier edge before a later one. */
  predicate Before(a: Route, b: Route)
    decreases a
  {
    b != [] && (a == [] || a[0] < b[0] || (a[0] == b[0] && Before(a[1..], b[1..])))
  }

  predicate InOrder(rs: seq<Route>) {
    forall i, j :: 0 <= i < j < |rs| ==> Before(rs[i], rs[j])
  }

  lemma {:induction false} BeforeIrreflexive(a: Route)
    ensures !Before(a, a)
    decreases a
  {
    if a != [] {
      BeforeIrreflexive(a[1..]);
    }
  }

  lemma ThroughInOrder(k: nat, rs: seq<Route>)
    requires InOrder(rs)
    ensures InOrder(Through(k, rs))
  {
    ThroughAt(k, rs);
    forall i, j | 0 <= i < j < |rs|
      ensures Before([k] + rs[i], [k] + rs[j])
    {
      assert ([k] + rs[i])[1..] == rs[i] && ([k] + rs[j])[1..] == rs[j];
    }
  }

  predicate AllBefore(s: seq<Route>, t: seq<Route>) {
    forall a, b :: a in s && b in t ==> Before(a, b)
  }

  lemma JoinInOrder(s: seq<Route>, t: seq<Route>)
    requires InOrder(s) && InOrder(t) && AllBefore(s, t)
    ensures InOrder(s + t)
  {
    forall i, j | 0 <= i < j < |s + t|
      ensures Before((s + t)[i], (s + t)[j])
    {
      if i < |s| <= j {
        assert s[i] in s && t[j - |s|] in t;
      }
    }
  }

  lemma {:induction false} RoutesInOrder(adj: Adjacency, tid: TypeId, avoid: set<TypeId>)
    requires ClosedUnder(adj) && tid in adj
    ensures InOrder(AllRoutes(adj, tid, avoid))
    decreases adj.Keys - avoid, 0
  {
    if tid !in avoid {
      var n := |adj[tid]|;
      assert adj.Keys - (avoid + {tid}) < adj.Keys - avoid;
      RoutesViaInOrder(adj, tid, avoid + {tid}, n);
      var via := RoutesVia(adj, tid, avoid + {tid}, n);
      forall r | r in via
        ensures Before([], r)
      {
        RoutesViaMembers(adj, tid, avoid + {tid}, n, r);
      }
      JoinInOrder([[]], via);
    }
  }

  lemma {:induction false} RoutesViaInOrder(adj: Adjacency, tid: TypeId, avoid: set<TypeId>, n: nat)
    requires ClosedUnder(adj) && tid in adj && n <= |adj[tid]|
    ensures InOrder(RoutesVia(adj, tid, avoid, n))
    decreases adj.Keys - avoid, n + 1
  {
    if n > 0 {
      var target := EdgeAt(adj, tid, n - 1).target;
      RoutesViaInOrder(adj, tid, avoid, n - 1);
      RoutesInOrder(adj, target, avoid);
      ThroughInOrder(n - 1, AllRoutes(adj, target, avoid));
      EarlierEdgesBefore(adj, tid, avoid, n - 1, AllRoutes(adj, target, avoid));
      JoinInOrder(RoutesVia(adj, tid, avoid, n - 1), Through(n - 1, AllRoutes(adj, target, avoid)));
    }
  }

  lemma EarlierEdgesBefore(adj: Adjacency, tid: TypeId, avoid: set<TypeId>, n: nat, rs: seq<Route>)
    requires ClosedUnder(adj) && tid in adj && n < |adj[tid]|
    ensures AllBefore(RoutesVia(adj, tid, avoid, n), Through(n, rs))
  {
    forall a, b | a in RoutesVia(adj, tid, avoid, n) && b in Through(n, rs)
      ensures Before(a, b)
    {
      RoutesViaMembers(adj, tid, avoid, n, a);
      ThroughMembers(n, rs, b);
    }
  }

  lemma ListedOnce(adj: Adjacency, tid: TypeId, avoid: set<TypeId>, i: nat, j: nat)
    requires ClosedUnder(adj) && tid in adj
    requires i < j < |AllRoutes(adj, tid, avoid)|
    ensures AllRoutes(adj, tid, avoid)[i] != AllRoutes(adj, tid, avoid)[j]
  {
    RoutesInOrder(adj, tid, avoid);
    BeforeIrreflexive(AllRoutes(adj, tid, avoid)[i]);
  }

  // ----- What they are recorded as ----------------------------------------------------------

  ghost predicate AllFollow(adj: Adjacency, tid: TypeId, rs: seq<Route>)
    requires ClosedUnder(adj) && tid in adj
  {
    forall i {:trigger Follows(adj, tid, rs[i])} :: 0 <= i < |rs| ==> Follows(adj, tid, rs[i])
  }

  /** One entry per route, in the same order. */
  ghost function Entries(adj: Adjacency, tid: TypeId, path: seq<string>, rs: seq<Route>): (es: seq<Entry>)
    requires ClosedUnder(adj) && tid in adj && AllFollow(adj, tid, rs)
    ensures |es| == |rs|
  {
    if rs == [] then []
    else
      AllFollowTail(adj, tid, rs);
      [EntryOf(adj, tid, path, rs[0])] + Entries(adj, tid, path, rs[1..])
  }

  lemma AllFollowTail(adj: Adjacency, tid: TypeId, rs: seq<Route>)
    requires ClosedUnder(adj) && tid in adj && AllFollow(adj, tid, rs) && rs != []
    ensures Follows(adj, tid, rs[0]) && AllFollow(adj, tid, rs[1..])
  {
    forall i | 0 <= i < |rs| - 1
      ensures Follows(adj, tid, rs[1..][i])
    {
      assert Follows(adj, tid, rs[i + 1]);
    }
  }

  lemma {:induction false} EntriesAt(adj: Adjacency, tid: TypeId, path: seq<string>, rs: seq<Route>, i: nat)
    requires ClosedUnder(adj) && tid in adj && AllFollow(adj, tid, rs) && i < |rs|
    ensures Follows(adj, tid, rs[i]) && Entries(adj, tid, path, rs)[i] == EntryOf(adj, tid, path, rs[i])
  {
    AllFollowTail(adj, tid, rs);
    if i > 0 {
      EntriesAt(adj, tid, path, rs[1..], i - 1);
    }
  }

  lemma AllRoutesFollow(adj: Adjacency, tid: TypeId, avoid: set<TypeId>)
    requires ClosedUnder(adj) && tid in adj
    ensures AllFollow(adj, tid, AllRoutes(adj, tid, avoid))
  {
    var rs := AllRoutes(adj, tid, avoid);
    forall i | 0 <= i < |rs|
      ensures Follows(adj, tid, rs[i])
    {
      assert rs[i] in rs;
      ListedIffSimple(adj, tid, avoid, rs[i]);
    }
  }

  lemma RoutesViaFollow(adj: Adjacency, tid: TypeId, avoid: set<TypeId>, n: nat)
    requires ClosedUnder(adj) && tid in adj && n <= |adj[tid]|
    ensures AllFollow(adj, tid, RoutesVia(adj, tid, avoid, n))
  {
    var rs := RoutesVia(adj, tid, avoid, n);
    forall i | 0 <= i < |rs|
      ensures Follows(adj, tid, rs[i])
    {
      var r := rs[i];
      assert r in rs;
      RoutesViaMembers(adj, tid, avoid, n, r);
      ListedIffSimple(adj, EdgeAt(adj, tid, r[0]).target, avoid, r[1..]);
    }
  }

  lemma EntryThrough(adj: Adjacency, tid: TypeId, path: seq<string>, k: nat, r: Route)
    requires ClosedUnder(adj) && tid in adj && k < |adj[tid]|
    ensures var e := EdgeAt(adj, tid, k);
            Follows(adj, e.target, r) ==>
              && Follows(adj, tid, [k] + r)
              && EntryOf(adj, tid, path, [k] + r) == EntryOf(adj, e.target, path + [e.step], r)
  {
    var e := EdgeAt(adj, tid, k);
    assert ([k] + r)[0] == k && ([k] + r)[1..] == r;
    if Follows(adj, e.target, r) {
      assert path + StepsAlong(adj, tid, [k] + r) == path + [e.step] + StepsAlong(adj, e.target, r);
    }
  }

  lemma ThroughTail(k: nat, rs: seq<Route>)
    requires rs != []
    ensures Through(k, rs) != [] && Through(k, rs)[0] == [k] + rs[0] && Through(k, rs)[1..] == Through(k, rs[1..])
  {
    ThroughAt(k, rs);
    ThroughAt(k, rs[1..]);
  }

  lemma {:induction false} EntriesThrough(adj: Adjacency, tid: TypeId, path: seq<string>, k: nat, rs: seq<Route>)
    requires ClosedUnder(adj) && tid in adj && k < |adj[tid]|
    requires AllFollow(adj, EdgeAt(adj, tid, k).target, rs)
    ensures AllFollow(adj, tid, Through(k, rs))
    ensures var e := EdgeAt(adj, tid, k);
            Entries(adj, tid, path, Through(k, rs)) == Entries(adj, e.target, path + [e.step], rs)
    decreases |rs|
  {
    if rs != [] {
      AllFollowTail(adj, EdgeAt(adj, tid, k).target, rs);
      EntryThrough(adj, tid, path, k, rs[0]);
      EntriesThrough(adj, tid, path, k, rs[1..]);
      ThroughTail(k, rs);
      AllFollowMore(adj, tid, Through(k, rs));
    }
  }

  lemma AllFollowMore(adj: Adjacency, tid: TypeId, rs: seq<Route>)
    requires ClosedUnder(adj) && tid in adj && rs != []
    requires Follows(adj, tid, rs[0]) && AllFollow(adj, tid, rs[1..])
    ensures AllFollow(adj, tid, rs)
  {
    forall i | 0 <= i < |rs|
      ensures Follows(adj, tid, rs[i])
    {
      if i > 0 {
        assert Follows(adj, tid, rs[1..][i - 1]);
      }
    }
  }

  lemma {:induction false} EntriesConcat(adj: Adjacency, tid: TypeId, path: seq<string>, s: seq<Route>, t: seq<Route>)
    requires ClosedUnder(adj) && tid in adj && AllFollow(adj, tid, s) && AllFollow(adj, tid, t)
    ensures AllFollow(adj, tid, s + t)
    ensures Entries(adj, tid, path, s + t) == Entries(adj, tid, path, s) + Entries(adj, tid, path, t)
    decreases |s|
  {
    if s == [] {
      assert s + t == t;
    } else {
      AllFollowTail(adj, tid, s);
      EntriesConcat(adj, tid, path, s[1..], t);
      assert (s + t)[1..] == s[1..] + t;
      AllFollowMore(adj, tid, s + t);
      Regroup([EntryOf(adj, tid, path, s[0])], Entries(adj, tid, path, s[1..]), Entries(adj, tid, path, t));
    }
  }

  /** Going through one more edge adds the entries of the type it leads to. */
  lemma EntriesVia(adj: Adjacency, tid: TypeId, avoid: set<TypeId>, path: seq<string>, n: nat)
    requires ClosedUnder(adj) && tid in adj && n < |adj[tid]|
    ensures AllFollow(adj, tid, RoutesVia(adj, tid, avoid, n))
    ensures AllFollow(adj, tid, RoutesVia(adj, tid, avoid, n + 1))
    ensures AllFollow(adj, EdgeAt(adj, tid, n).target, AllRoutes(adj, EdgeAt(adj, tid, n).target, avoid))
    ensures var e := EdgeAt(adj, tid, n);
            Entries(adj, tid, path, RoutesVia(adj, tid, avoid, n + 1)) ==
            Entries(adj, tid, path, RoutesVia(adj, tid, avoid, n))
            + Entries(adj, e.target, path + [e.step], AllRoutes(adj, e.target, avoid))
  {
    var e := EdgeAt(adj, tid, n);
    var rs := AllRoutes(adj, e.target, avoid);
    RoutesViaFollow(adj, tid, avoid, n);
    AllRoutesFollow(adj, e.target, avoid);
    EntriesThrough(adj, tid, path, n, rs);
    EntriesConcat(adj, tid, path, RoutesVia(adj, tid, avoid, n), Through(n, rs));
  }
}
