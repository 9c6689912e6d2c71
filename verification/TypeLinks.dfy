/** Which edges leave a type, in the type system's own terms, and in which order. */
module TypeLinks {
  import opened TypeGraph
  import opened Routes

  /** What an edge comes from: an attribute of the type, a registered type, or an aggregation. */
  datatype Link = AttributeLink(i: nat) | ChildLink(i: nat) | AggregateLink(i: nat)

  /** Attributes first, then children, then aggregations, each in their order. */
  predicate Earlier(l: Link, m: Link) {
    || (l.AttributeLink? && !m.AttributeLink?) || (l.ChildLink? && m.AggregateLink?)
    || (l.AttributeLink? && m.AttributeLink? && l.i < m.i)
    || (l.ChildLink? && m.ChildLink? && l.i < m.i)
    || (l.AggregateLink? && m.AggregateLink? && l.i < m.i)
  }

  /** The edge that a link of type t stands for. */
  predicate Gives(g: Types, aggregates: Aggregates, t: TypeId, l: Link, e: Edge)
    requires Closed(g, aggregates) && t in g.attributes
  {
    match l
    case AttributeLink(i) =>
      && i < |g.attributes[t]|
      && (match g.attributes[t][i]
          case Pointer(name, p) => p != g.objectType && e.step == name && e.target == p
          case Container(name, c) => e.step == name + "/[i]" && e.target == c
          case Scalar(_) => false)
    case ChildLink(i) =>
      && i < |g.registered| && e.target == g.registered[i] && (e.target, t) in g.childOf
      && e.step == "$" + g.names[e.target]
    case AggregateLink(i) =>
      && i < |aggregates| && (aggregates[i] == (t, e.target) || aggregates[i] == (e.target, t))
      && e.step == "$" + g.names[e.target]
  }

  predicate Kind(l: Link, like: Link) {
    l.AttributeLink? == like.AttributeLink? && l.ChildLink? == like.ChildLink?
  }

  predicate Rising(links: seq<Link>) {
    forall i, j {:trigger Earlier(links[i], links[j])} :: 0 <= i < j < |links| ==> Earlier(links[i], links[j])
  }

  predicate GivesAll(g: Types, aggregates: Aggregates, t: TypeId, links: seq<Link>, es: seq<Edge>)
    requires Closed(g, aggregates) && t in g.attributes
  {
    && |links| == |es|
    && forall k {:trigger Gives(g, aggregates, t, links[k], es[k])} ::
         0 <= k < |es| ==> Gives(g, aggregates, t, links[k], es[k])
  }

  ghost predicate NoneMissing(g: Types, aggregates: Aggregates, t: TypeId, links: seq<Link>, like: Link, n: nat)
    requires Closed(g, aggregates) && t in g.attributes
  {
    forall l, e :: Kind(l, like) && l.i < n && Gives(g, aggregates, t, l, e) ==> l in links
  }

  /** The edges of one kind, of the first n candidates: each comes from its link, in order, and none is missing. */
  ghost predicate Made(g: Types, aggregates: Aggregates, t: TypeId, links: seq<Link>, es: seq<Edge>, like: Link, n: nat)
    requires Closed(g, aggregates) && t in g.attributes
  {
    && Rising(links) && GivesAll(g, aggregates, t, links, es) && NoneMissing(g, aggregates, t, links, like, n)
    && forall k :: 0 <= k < |links| ==> Kind(links[k], like) && links[k].i < n
  }

  lemma RisingConcat(a: seq<Link>, b: seq<Link>)
    requires Rising(a) && Rising(b) && forall l, m :: l in a && m in b ==> Earlier(l, m)
    ensures Rising(a + b)
  {
    var all := a + b;
    forall i, j | 0 <= i < j < |all|
      ensures Earlier(all[i], all[j])
    {
      if j < |a| {
        assert Earlier(a[i], a[j]);
      } else if i >= |a| {
        assert Earlier(b[i - |a|], b[j - |a|]);
      } else {
        assert a[i] in a && b[j - |a|] in b;
      }
    }
  }

  lemma GivesConcat(g: Types, aggregates: Aggregates, t: TypeId, a: seq<Link>, b: seq<Link>, es: seq<Edge>, fs: seq<Edge>)
    requires Closed(g, aggregates) && t in g.attributes
    requires GivesAll(g, aggregates, t, a, es) && GivesAll(g, aggregates, t, b, fs)
    ensures GivesAll(g, aggregates, t, a + b, es + fs)
  {
    var links, all := a + b, es + fs;
    forall k | 0 <= k < |all|
      ensures Gives(g, aggregates, t, links[k], all[k])
    {
      if k < |es| {
        assert Gives(g, aggregates, t, a[k], es[k]);
      } else {
        assert Gives(g, aggregates, t, b[k - |es|], fs[k - |es|]);
      }
    }
  }

  /** One more candidate, l, which gives the edges more: one or none. */
  lemma OneMoreMade(g: Types, aggregates: Aggregates, t: TypeId, links: seq<Link>, es: seq<Edge>, l: Link, more: seq<Edge>)
    requires Closed(g, aggregates) && t in g.attributes && Made(g, aggregates, t, links, es, l, l.i)
    requires |more| <= 1 && forall e :: Gives(g, aggregates, t, l, e) <==> e in more
    ensures Made(g, aggregates, t, links + if more == [] then [] else [l], es + more, l, l.i + 1)
  {
    var last := if more == [] then [] else [l];
    forall m, e | Kind(m, l) && m.i < l.i + 1 && Gives(g, aggregates, t, m, e)
      ensures m in links + last
    {
      if m.i == l.i {
        assert m == l && e in more;
      }
    }
    assert more != [] ==> more[0] in more;
    assert GivesAll(g, aggregates, t, last, more);
    GivesConcat(g, aggregates, t, links, last, es, more);
    RisingConcat(links, last);
  }

  lemma AttributeGives(g: Types, aggregates: Aggregates, t: TypeId, i: nat)
    requires Closed(g, aggregates) && t in g.attributes && i < |g.attributes[t]|
    ensures forall e :: Gives(g, aggregates, t, AttributeLink(i), e) <==> e in AttributeEdge(g, g.attributes[t][i])
  {
  }

  /** The edge of one aggregation. */
  function AggregateEdge(g: Types, t: TypeId, pair: (TypeId, TypeId)): seq<Edge>
    requires pair.0 in g.names && pair.1 in g.names
  {
    if pair.0 == t || pair.1 == t then [NamedEdge(g, Other(pair, t))] else []
  }

  lemma AggregateGives(g: Types, aggregates: Aggregates, t: TypeId, i: nat)
    requires Closed(g, aggregates) && t in g.attributes && i < |aggregates|
    ensures forall e :: Gives(g, aggregates, t, AggregateLink(i), e) <==> e in AggregateEdge(g, t, aggregates[i])
  {
  }

  lemma AggregateEdgesNext(g: Types, aggregates: Aggregates, t: TypeId, n: nat)
    requires Closed(g, aggregates) && n < |aggregates|
    ensures AggregateEdges(g, t, aggregates[..n + 1])
         == AggregateEdges(g, t, aggregates[..n]) + AggregateEdge(g, t, aggregates[n])
  {
    assert aggregates[..n + 1][..n] == aggregates[..n];
  }

  lemma {:induction false} AttributesMade(g: Types, aggregates: Aggregates, t: TypeId, n: nat) returns (links: seq<Link>)
    requires Closed(g, aggregates) && t in g.attributes && n <= |g.attributes[t]|
    ensures Made(g, aggregates, t, links, AttributeEdges(g, g.attributes[t][..n]), AttributeLink(n), n)
  {
    if n == 0 {
      links := [];
    } else {
      var attributes, l := g.attributes[t], AttributeLink(n - 1);
      links := AttributesMade(g, aggregates, t, n - 1);
      var es, more := AttributeEdges(g, attributes[..n - 1]), AttributeEdge(g, attributes[n - 1]);
      assert attributes[..n][..n - 1] == attributes[..n - 1];
      AttributeGives(g, aggregates, t, n - 1);
      OneMoreMade(g, aggregates, t, links, es, l, more);
      links := links + if more == [] then [] else [l];
    }
  }

  lemma {:induction false} ChildrenMade(g: Types, aggregates: Aggregates, t: TypeId, n: nat) returns (links: seq<Link>)
    requires Closed(g, aggregates) && t in g.attributes && n <= |g.registered|
    ensures Made(g, aggregates, t, links, ChildEdges(g, t, g.registered[..n]), ChildLink(n), n)
  {
    if n == 0 {
      links := [];
    } else {
      var child, l := g.registered[n - 1], ChildLink(n - 1);
      links := ChildrenMade(g, aggregates, t, n - 1);
      var es, more := ChildEdges(g, t, g.registered[..n - 1]), if (child, t) in g.childOf then [NamedEdge(g, child)] else [];
      assert g.registered[..n][..n - 1] == g.registered[..n - 1];
      OneMoreMade(g, aggregates, t, links, es, l, more);
      links := links + if more == [] then [] else [l];
    }
  }

  lemma {:induction false} AggregatesMade(g: Types, aggregates: Aggregates, t: TypeId, n: nat) returns (links: seq<Link>)
    requires Closed(g, aggregates) && t in g.attributes && n <= |aggregates|
    ensures Made(g, aggregates, t, links, AggregateEdges(g, t, aggregates[..n]), AggregateLink(n), n)
  {
    if n == 0 {
      links := [];
    } else {
      var l := AggregateLink(n - 1);
      links := AggregatesMade(g, aggregates, t, n - 1);
      var es, more := AggregateEdges(g, t, aggregates[..n - 1]), AggregateEdge(g, t, aggregates[n - 1]);
      AggregateEdgesNext(g, aggregates, t, n - 1);
      AggregateGives(g, aggregates, t, n - 1);
      OneMoreMade(g, aggregates, t, links, es, l, more);
      links := links + if more == [] then [] else [l];
    }
  }

  ghost predicate AllLinked(g: Types, aggregates: Aggregates, t: TypeId, links: seq<Link>)
    requires Closed(g, aggregates) && t in g.attributes
  {
    && Rising(links) && GivesAll(g, aggregates, t, links, OutEdges(g, aggregates, t))
    && forall l, e :: Gives(g, aggregates, t, l, e) ==> l in links
  }

  /** The edges of a type come from its links, one from each that gives one, in the order of the links. */
  lemma EdgesAreLinks(g: Types, aggregates: Aggregates, t: TypeId) returns (links: seq<Link>)
    requires Closed(g, aggregates) && t in g.attributes
    ensures AllLinked(g, aggregates, t, links)
  {
    var a := AttributesMade(g, aggregates, t, |g.attributes[t]|);
    var c := ChildrenMade(g, aggregates, t, |g.registered|);
    var r := AggregatesMade(g, aggregates, t, |aggregates|);
    assert g.attributes[t][..|g.attributes[t]|] == g.attributes[t] && g.registered[..|g.registered|] == g.registered
        && aggregates[..|aggregates|] == aggregates;
    links := a + c + r;
    RisingConcat(a, c);
    RisingConcat(a + c, r);
    GivesConcat(g, aggregates, t, a, c, AttributeEdges(g, g.attributes[t]), ChildEdges(g, t, g.registered));
    GivesConcat(g, aggregates, t, a + c, r, AttributeEdges(g, g.attributes[t]) + ChildEdges(g, t, g.registered),
                AggregateEdges(g, t, aggregates));
    forall l, e | Gives(g, aggregates, t, l, e)
      ensures l in links
    {
      assert l.AttributeLink? ==> Kind(l, AttributeLink(|g.attributes[t]|));
      assert l.ChildLink? ==> Kind(l, ChildLink(|g.registered|));
      assert l.AggregateLink? ==> Kind(l, AggregateLink(|aggregates|));
    }
  }

  /** Step by step and type by type: when there is an edge. */
  lemma EdgeIff(g: Types, aggregates: Aggregates, t: TypeId, step: string, u: TypeId)
    requires Closed(g, aggregates) && t in g.attributes && u in g.attributes
    ensures Edge(step, u) in OutEdges(g, aggregates, t) <==>
            || (Pointer(step, u) in g.attributes[t] && u != g.objectType)
            || (exists name :: Container(name, u) in g.attributes[t] && step == name + "/[i]")
            || (u in g.registered && (u, t) in g.childOf && step == "$" + g.names[u])
            || (((t, u) in aggregates || (u, t) in aggregates) && step == "$" + g.names[u])
  {
    var links := EdgesAreLinks(g, aggregates, t);
    var es, e := OutEdges(g, aggregates, t), Edge(step, u);
    if e in es {
      var k :| 0 <= k < |es| && es[k] == e;
      assert Gives(g, aggregates, t, links[k], e);
      if links[k].AttributeLink? {
        assert g.attributes[t][links[k].i] in g.attributes[t];
      }
    }
    if Pointer(step, u) in g.attributes[t] && u != g.objectType {
      var i :| 0 <= i < |g.attributes[t]| && g.attributes[t][i] == Pointer(step, u);
      LinkGives(g, aggregates, t, links, AttributeLink(i), e);
    }
    if name :| Container(name, u) in g.attributes[t] && step == name + "/[i]" {
      var i :| 0 <= i < |g.attributes[t]| && g.attributes[t][i] == Container(name, u);
      LinkGives(g, aggregates, t, links, AttributeLink(i), e);
    }
    if u in g.registered && (u, t) in g.childOf && step == "$" + g.names[u] {
      var i :| 0 <= i < |g.registered| && g.registered[i] == u;
      LinkGives(g, aggregates, t, links, ChildLink(i), e);
    }
    if ((t, u) in aggregates || (u, t) in aggregates) && step == "$" + g.names[u] {
      var i :| 0 <= i < |aggregates| && (aggregates[i] == (t, u) || aggregates[i] == (u, t));
      LinkGives(g, aggregates, t, links, AggregateLink(i), e);
    }
  }

  lemma LinkGives(g: Types, aggregates: Aggregates, t: TypeId, links: seq<Link>, l: Link, e: Edge)
    requires Closed(g, aggregates) && t in g.attributes && AllLinked(g, aggregates, t, links)
    requires Gives(g, aggregates, t, l, e)
    ensures e in OutEdges(g, aggregates, t)
  {
    var k :| 0 <= k < |links| && links[k] == l;
    assert Gives(g, aggregates, t, l, OutEdges(g, aggregates, t)[k]);
  }

  /** An aggregation can be followed both ways. */
  lemma AggregatedBothWays(g: Types, aggregates: Aggregates, a: TypeId, b: TypeId)
    requires Closed(g, aggregates) && (a, b) in aggregates
    ensures a in g.attributes && b in g.attributes
    ensures Edge("$" + g.names[b], b) in OutEdges(g, aggregates, a)
    ensures Edge("$" + g.names[a], a) in OutEdges(g, aggregates, b)
  {
    var i :| 0 <= i < |aggregates| && aggregates[i] == (a, b);
    EdgeIff(g, aggregates, a, "$" + g.names[b], b);
    EdgeIff(g, aggregates, b, "$" + g.names[a], a);
  }

  // ----- How a path is written -----------------------------------------------------------------------------

  lemma {:induction false} RenderFirst(step: string, path: seq<string>)
    ensures Render([step] + path) == "/" + step + Render(path)
    decreases |path|
  {
    if path == [] {
      assert [step] + path == [step] && [step][..0] == [];
    } else {
      var init := path[..|path| - 1];
      assert ([step] + path)[..|path|] == [step] + init;
      RenderFirst(step, init);
    }
  }

  /** Three steps down. */
  lemma RenderThree(a: string, b: string, c: string)
    ensures Render([a, b, c]) == "/" + a + "/" + b + "/" + c
  {
    RenderFirst(a, [b, c]);
    RenderFirst(b, [c]);
    RenderFirst(c, []);
    assert [a] + [b, c] == [a, b, c] && [b] + [c] == [b, c] && [c] + [] == [c];
  }
}
