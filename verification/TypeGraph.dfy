/** The type graph that the configuration paths run through: attributes, registered
    children and aggregations, in the order in which DoGather meets them. */
module TypeGraph {

  type TypeId(==, !new)

  datatype Attribute =
    | Pointer(name: string, pointee: TypeId)
    | Container(name: string, item: TypeId)
    | Scalar(name: string)

  datatype Types = Types(
    attributes: map<TypeId, seq<Attribute>>,
    names: map<TypeId, string>,
    registered: seq<TypeId>,
    childOf: set<(TypeId, TypeId)>,
    objectType: TypeId
  )

  type Aggregates = seq<(TypeId, TypeId)>

  /** The type that an attribute points to is a type. */
  predicate Known(g: Types, a: Attribute) {
    match a
    case Pointer(_, p) => p in g.attributes
    case Container(_, c) => c in g.attributes
    case Scalar(_) => true
  }

  /** Every type that is mentioned is a type. */
  predicate Closed(g: Types, aggregates: Aggregates) {
    && g.names.Keys == g.attributes.Keys
    && (forall t, i :: t in g.attributes && 0 <= i < |g.attributes[t]| ==> Known(g, g.attributes[t][i]))
    && (forall i :: 0 <= i < |g.registered| ==> g.registered[i] in g.attributes)
    && (forall i :: 0 <= i < |aggregates| ==> aggregates[i].0 in g.attributes && aggregates[i].1 in g.attributes)
  }

  // ----- Edges ------------------------------------------------------------------------------

  datatype Edge = Edge(step: string, target: TypeId)

  function AttributeEdge(g: Types, a: Attribute): seq<Edge> {
    match a
    case Pointer(name, p) => if p == g.objectType then [] else [Edge(name, p)]
    case Container(name, c) => [Edge(name + "/[i]", c)]
    case Scalar(_) => []
  }

  function AttributeEdges(g: Types, attributes: seq<Attribute>): seq<Edge> {
    if attributes == [] then []
    else AttributeEdges(g, attributes[..|attributes| - 1]) + AttributeEdge(g, attributes[|attributes| - 1])
  }

  function NamedEdge(g: Types, t: TypeId): Edge
    requires t in g.names
  {
    Edge("$" + g.names[t], t)
  }

  function ChildEdges(g: Types, tid: TypeId, registered: seq<TypeId>): seq<Edge>
    requires forall i :: 0 <= i < |registered| ==> registered[i] in g.names
  {
    if registered == [] then []
    else
      var child := registered[|registered| - 1];
      ChildEdges(g, tid, registered[..|registered| - 1]) + if (child, tid) in g.childOf then [NamedEdge(g, child)] else []
  }

  /** The other side of an aggregation that tid takes part in. */
  function Other(pair: (TypeId, TypeId), tid: TypeId): TypeId {
    if pair.1 == tid then pair.0 else pair.1
  }

  function AggregateEdges(g: Types, tid: TypeId, aggregates: Aggregates): seq<Edge>
    requires forall i :: 0 <= i < |aggregates| ==> aggregates[i].0 in g.names && aggregates[i].1 in g.names
  {
    if aggregates == [] then []
    else
      var pair := aggregates[|aggregates| - 1];
      AggregateEdges(g, tid, aggregates[..|aggregates| - 1])
      + if pair.0 == tid || pair.1 == tid then [NamedEdge(g, Other(pair, tid))] else []
  }

  function OutEdges(g: Types, aggregates: Aggregates, tid: TypeId): seq<Edge>
    requires Closed(g, aggregates) && tid in g.attributes
  {
    AttributeEdges(g, g.attributes[tid]) + ChildEdges(g, tid, g.registered) + AggregateEdges(g, tid, aggregates)
  }

  lemma {:induction false} AttributeTargets(g: Types, attributes: seq<Attribute>, e: Edge)
    requires forall i :: 0 <= i < |attributes| ==>
      forall f :: f in AttributeEdge(g, attributes[i]) ==> f.target in g.attributes
    requires e in AttributeEdges(g, attributes)
    ensures e.target in g.attributes
  {
    var n := |attributes| - 1;
    if e in AttributeEdges(g, attributes[..n]) {
      AttributeTargets(g, attributes[..n], e);
    } else {
      assert e in AttributeEdge(g, attributes[n]);
    }
  }

  lemma {:induction false} ChildTargets(g: Types, tid: TypeId, registered: seq<TypeId>, e: Edge)
    requires forall i :: 0 <= i < |registered| ==> registered[i] in g.names
    requires e in ChildEdges(g, tid, registered)
    ensures e.target in g.names
  {
    var n := |registered| - 1;
    if e in ChildEdges(g, tid, registered[..n]) {
      ChildTargets(g, tid, registered[..n], e);
    }
  }

  lemma {:induction false} AggregateTargets(g: Types, tid: TypeId, aggregates: Aggregates, e: Edge)
    requires forall i :: 0 <= i < |aggregates| ==> aggregates[i].0 in g.names && aggregates[i].1 in g.names
    requires e in AggregateEdges(g, tid, aggregates)
    ensures e.target in g.names
  {
    var n := |aggregates| - 1;
    if e in AggregateEdges(g, tid, aggregates[..n]) {
      AggregateTargets(g, tid, aggregates[..n], e);
    }
  }

  lemma EdgesStayInside(g: Types, aggregates: Aggregates, tid: TypeId)
    requires Closed(g, aggregates) && tid in g.attributes
    ensures forall e :: e in OutEdges(g, aggregates, tid) ==> e.target in g.attributes
  {
    forall e | e in OutEdges(g, aggregates, tid)
      ensures e.target in g.attributes
    {
      if e in AttributeEdges(g, g.attributes[tid]) {
        AttributeTargets(g, g.attributes[tid], e);
      } else if e in ChildEdges(g, tid, g.registered) {
        ChildTargets(g, tid, g.registered, e);
      } else {
        AggregateTargets(g, tid, aggregates, e);
      }
    }
  }
}
