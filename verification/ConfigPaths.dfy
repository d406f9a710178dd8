/** The labelled, possibly cyclic graph that the registered types, their attributes and their
    aggregations make up. */
module ConfigPaths {
  import opened PathWalk

  /** What the walk looks at in an attribute's checker. */
  datatype Attribute = Plain(name: string) | Pointer(name: string, pointee: TypeId) | Container(name: string, item: TypeId)

  datatype Registry = Registry(
    registered: seq<TypeId>,
    names: map<TypeId, string>,
    attributes: map<TypeId, seq<Attribute>>,
    childOf: set<(TypeId, TypeId)>,      // (child, ancestor)
    objectType: TypeId,
    aggregates: seq<(TypeId, TypeId)>)

  /** Every type mentioned is a registered one. */
  ghost predicate Sound(r: Registry) {
    && (forall t :: t in r.registered <==> t in r.names)
    && (forall t :: t in r.registered <==> t in r.attributes)
    && (forall t, i :: t in r.attributes && 0 <= i < |r.attributes[t]| ==>
        match r.attributes[t][i]
        case Plain(_) => true
        case Pointer(_, p) => p in r.registered
        case Container(_, p) => p in r.registered)
    && (forall i :: 0 <= i < |r.aggregates| ==> r.aggregates[i].0 in r.registered && r.aggregates[i].1 in r.registered)
  }

  type SoundRegistry = r: Registry | Sound(r) witness Registry([], map[], map[], {}, 0, [])

  // ---- The edges out of a type, in the order the three loops visit them

  function AttributeEdge(r: Registry, a: Attribute): seq<Edge> {
    match a
    case Plain(_) => []
    case Pointer(name, pointee) => if pointee == r.objectType then [] else [Edge(name, pointee)]
    case Container(name, item) => [Edge(name + "/[i]", item)]
  }

  function AttributeEdges(r: Registry, attributes: seq<Attribute>): seq<Edge> {
    if attributes == [] then []
    else AttributeEdges(r, attributes[..|attributes| - 1]) + AttributeEdge(r, attributes[|attributes| - 1])
  }

  function TypeEdge(r: Registry, t: TypeId): Edge {
    Edge("$" + if t in r.names then r.names[t] else "", t)
  }

  function ChildEdges(r: Registry, tid: TypeId, registered: seq<TypeId>): seq<Edge> {
    if registered == [] then []
    else
      var child := registered[|registered| - 1];
      ChildEdges(r, tid, registered[..|registered| - 1]) + if (child, tid) in r.childOf then [TypeEdge(r, child)] else []
  }

  function AggregateEdge(r: Registry, tid: TypeId, item: (TypeId, TypeId)): seq<Edge> {
    if item.1 == tid then [TypeEdge(r, item.0)] else if item.0 == tid then [TypeEdge(r, item.1)] else []
  }

  function AggregateEdges(r: Registry, tid: TypeId, aggregates: seq<(TypeId, TypeId)>): seq<Edge> {
    if aggregates == [] then []
    else
      AggregateEdges(r, tid, aggregates[..|aggregates| - 1]) + AggregateEdge(r, tid, aggregates[|aggregates| - 1])
  }

  function Edges(r: Registry, tid: TypeId): seq<Edge>
    requires tid in r.attributes
  {
    AttributeEdges(r, r.attributes[tid]) + ChildEdges(r, tid, r.registered) + AggregateEdges(r, tid, r.aggregates)
  }

  ghost predicate Registered(r: Registry, edges: seq<Edge>) {
    forall i :: 0 <= i < |edges| ==> edges[i].target in r.registered
  }

  lemma {:induction false} AttributeTargets(r: Registry, attributes: seq<Attribute>)
    requires forall i :: 0 <= i < |attributes| ==> Registered(r, AttributeEdge(r, attributes[i]))
    ensures Registered(r, AttributeEdges(r, attributes))
  {
    if attributes != [] { AttributeTargets(r, attributes[..|attributes| - 1]); }
  }

  lemma {:induction false} ChildTargets(r: Registry, tid: TypeId, registered: seq<TypeId>)
    requires forall i :: 0 <= i < |registered| ==> registered[i] in r.registered
    ensures Registered(r, ChildEdges(r, tid, registered))
  {
    if registered != [] { ChildTargets(r, tid, registered[..|registered| - 1]); }
  }

  lemma {:induction false} AggregateTargets(r: Registry, tid: TypeId, aggregates: seq<(TypeId, TypeId)>)
    requires forall i :: 0 <= i < |aggregates| ==> aggregates[i].0 in r.registered && aggregates[i].1 in r.registered
    ensures Registered(r, AggregateEdges(r, tid, aggregates))
  {
    if aggregates != [] { AggregateTargets(r, tid, aggregates[..|aggregates| - 1]); }
  }

  lemma EdgeTargets(r: SoundRegistry, tid: TypeId)
    requires tid in r.registered
    ensures Registered(r, Edges(r, tid))
  {
    AttributeTargets(r, r.attributes[tid]);
    ChildTargets(r, tid, r.registered);
    AggregateTargets(r, tid, r.aggregates);
  }

  lemma AttributeEdgesNext(r: SoundRegistry, attributes: seq<Attribute>, i: nat)
    requires i < |attributes|
    ensures AttributeEdges(r, attributes[..i + 1]) ==
      AttributeEdges(r, attributes[..i]) + AttributeEdge(r, attributes[i])
    ensures AttributeEdge(r, attributes[i]) == [] ==>
      AttributeEdges(r, attributes[..i + 1]) == AttributeEdges(r, attributes[..i])
  {
    assert attributes[..i + 1][..i] == attributes[..i];
  }

  lemma ChildEdgesNext(r: SoundRegistry, tid: TypeId, j: nat, edges0: seq<Edge>)
    requires j < |r.registered|
    ensures edges0 + ChildEdges(r, tid, r.registered[..j + 1]) ==
      if (r.registered[j], tid) in r.childOf
      then edges0 + ChildEdges(r, tid, r.registered[..j]) + [TypeEdge(r, r.registered[j])]
      else edges0 + ChildEdges(r, tid, r.registered[..j])
  {
    assert r.registered[..j + 1][..j] == r.registered[..j];
  }

  lemma AggregateEdgesNext(r: SoundRegistry, tid: TypeId, k: nat, edges0: seq<Edge>)
    requires k < |r.aggregates|
    ensures edges0 + AggregateEdges(r, tid, r.aggregates[..k + 1]) ==
      edges0 + AggregateEdges(r, tid, r.aggregates[..k]) + AggregateEdge(r, tid, r.aggregates[k])
    ensures AggregateEdge(r, tid, r.aggregates[k]) == [] ==>
      edges0 + AggregateEdges(r, tid, r.aggregates[..k + 1]) == edges0 + AggregateEdges(r, tid, r.aggregates[..k])
  {
    assert r.aggregates[..k + 1][..k] == r.aggregates[..k];
  }

  /** Registered types, each with its edges in the order the three loops visit them. */
  ghost function GraphOf(r: SoundRegistry): (g: Graph)
    ensures g.Keys == set t | t in r.registered
  {
    var g := map t | t in r.registered :: Edges(r, t);
    assert Closed(g) by {
      forall t | t in g ensures Targets(g, g[t]) {
        EdgeTargets(r, t);
      }
    }
    g
  }
}
