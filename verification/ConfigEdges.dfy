/** Which edges lead out of a type, said of the registry alone: which attributes, children and
    aggregates give one, with what step, how often and in what order. */
module ConfigEdges {
  import opened ConfigPaths
  import opened PathWalk
  import opened Sequences

  // ---- What leads where

  /** The edge goes through the attribute: a pointer, unless to a plain object, or an element of a
      container. */
  predicate Through(r: Registry, a: Attribute, e: Edge) {
    || (a.Pointer? && a.pointee != r.objectType && e == Edge(a.name, a.pointee))
    || (a.Container? && e == Edge(a.name + "/[i]", a.item))
  }

  predicate Followed(r: Registry, a: Attribute) {
    a.Container? || (a.Pointer? && a.pointee != r.objectType)
  }

  /** The edge names its target after a dollar sign. */
  predicate Named(r: Registry, e: Edge) {
    e.target in r.names && e.step == "$" + r.names[e.target]
  }

  predicate Joins(item: (TypeId, TypeId), tid: TypeId, other: TypeId) {
    item == (tid, other) || item == (other, tid)
  }

  /** The edges of the attributes at the given places, in that order. */
  ghost predicate ThroughAll(r: Registry, attributes: seq<Attribute>, at: seq<nat>, edges: seq<Edge>) {
    && Lists(at, set i | 0 <= i < |attributes| && Followed(r, attributes[i])) && |edges| == |at|
    && forall k :: 0 <= k < |at| ==> at[k] < |attributes| && Through(r, attributes[at[k]], edges[k])
  }

  /** The edges to the children of tid among the types at the given places. */
  ghost predicate ToChildren(r: Registry, tid: TypeId, types: seq<TypeId>, at: seq<nat>, edges: seq<Edge>) {
    && Lists(at, set i | 0 <= i < |types| && (types[i], tid) in r.childOf) && |edges| == |at|
    && forall k :: 0 <= k < |at| ==> at[k] < |types| && edges[k].target == types[at[k]] && Named(r, edges[k])
  }

  /** The edges to the other ends of the aggregations at the given places. */
  ghost predicate ToAggregates(r: Registry, tid: TypeId, items: seq<(TypeId, TypeId)>, at: seq<nat>, edges: seq<Edge>) {
    && Lists(at, set i | 0 <= i < |items| && (items[i].0 == tid || items[i].1 == tid)) && |edges| == |at|
    && forall k :: 0 <= k < |at| ==>
        at[k] < |items| && Joins(items[at[k]], tid, edges[k].target) && Named(r, edges[k])
  }

  // ---- The three loops

  lemma {:induction false} AttributesAt(r: Registry, attributes: seq<Attribute>) returns (at: seq<nat>)
    ensures ThroughAll(r, attributes, at, AttributeEdges(r, attributes))
  {
    at := [];
    if attributes != [] {
      var n := |attributes| - 1;
      at := AttributesAt(r, attributes[..n]);
      var before := set i | 0 <= i < n && Followed(r, attributes[..n][i]);
      if Followed(r, attributes[n]) {
        ListsOneMore(at, before, n);
        at := at + [n];
        assert before + {n} == set i | 0 <= i < |attributes| && Followed(r, attributes[i]);
      } else {
        assert before == set i | 0 <= i < |attributes| && Followed(r, attributes[i]);
      }
    }
  }

  lemma {:induction false} ChildrenAt(r: Registry, tid: TypeId, types: seq<TypeId>) returns (at: seq<nat>)
    requires forall i :: 0 <= i < |types| ==> types[i] in r.names
    ensures ToChildren(r, tid, types, at, ChildEdges(r, tid, types))
  {
    at := [];
    if types != [] {
      var n := |types| - 1;
      at := ChildrenAt(r, tid, types[..n]);
      var before := set i | 0 <= i < n && (types[..n][i], tid) in r.childOf;
      if (types[n], tid) in r.childOf {
        ListsOneMore(at, before, n);
        at := at + [n];
        assert before + {n} == set i | 0 <= i < |types| && (types[i], tid) in r.childOf;
      } else {
        assert before == set i | 0 <= i < |types| && (types[i], tid) in r.childOf;
      }
    }
  }

  lemma {:induction false} AggregatesAt(r: Registry, tid: TypeId, items: seq<(TypeId, TypeId)>) returns (at: seq<nat>)
    requires forall i :: 0 <= i < |items| ==> items[i].0 in r.names && items[i].1 in r.names
    ensures ToAggregates(r, tid, items, at, AggregateEdges(r, tid, items))
  {
    at := [];
    if items != [] {
      var n := |items| - 1;
      at := AggregatesAt(r, tid, items[..n]);
      var before := set i | 0 <= i < n && (items[..n][i].0 == tid || items[..n][i].1 == tid);
      if items[n].0 == tid || items[n].1 == tid {
        ListsOneMore(at, before, n);
        at := at + [n];
        assert before + {n} == set i | 0 <= i < |items| && (items[i].0 == tid || items[i].1 == tid);
      } else {
        assert before == set i | 0 <= i < |items| && (items[i].0 == tid || items[i].1 == tid);
      }
    }
  }

  // ---- The graph that is walked

  /** First one edge for each attribute followed, in their order, then one for each registered child,
      then one for each aggregation that the type is an end of. */
  lemma EdgesInOrder(r: SoundRegistry, tid: TypeId)
    returns (a: seq<nat>, c: seq<nat>, g: seq<nat>, attributes: seq<Edge>, children: seq<Edge>, aggregates: seq<Edge>)
    requires tid in r.registered
    ensures GraphOf(r)[tid] == attributes + children + aggregates
    ensures ThroughAll(r, r.attributes[tid], a, attributes)
    ensures ToChildren(r, tid, r.registered, c, children)
    ensures ToAggregates(r, tid, r.aggregates, g, aggregates)
  {
    attributes, children := AttributeEdges(r, r.attributes[tid]), ChildEdges(r, tid, r.registered);
    aggregates := AggregateEdges(r, tid, r.aggregates);
    a := AttributesAt(r, r.attributes[tid]);
    c := ChildrenAt(r, tid, r.registered);
    g := AggregatesAt(r, tid, r.aggregates);
  }

  /** The edges out of a type are exactly those through an attribute that is followed, to a
      registered child, and to the other end of an aggregation. */
  lemma EdgeIff(r: SoundRegistry, tid: TypeId, e: Edge)
    requires tid in r.registered
    ensures e in GraphOf(r)[tid] <==>
      || (exists i :: 0 <= i < |r.attributes[tid]| && Through(r, r.attributes[tid][i], e))
      || (Named(r, e) && e.target in r.registered && (e.target, tid) in r.childOf)
      || (Named(r, e) && exists i :: 0 <= i < |r.aggregates| && Joins(r.aggregates[i], tid, e.target))
  {
    var a, c, g, attributes, children, aggregates := EdgesInOrder(r, tid);
    ThroughIff(r, r.attributes[tid], a, attributes, e);
    ChildIff(r, tid, r.registered, c, children, e);
    AggregateIff(r, tid, r.aggregates, g, aggregates, e);
  }

  lemma ThroughIff(r: Registry, attributes: seq<Attribute>, at: seq<nat>, edges: seq<Edge>, e: Edge)
    requires ThroughAll(r, attributes, at, edges)
    ensures e in edges <==> exists i :: 0 <= i < |attributes| && Through(r, attributes[i], e)
  {
    if e in edges {
      var k :| 0 <= k < |edges| && edges[k] == e;
      assert Through(r, attributes[at[k]], e);
    }
    if i :| 0 <= i < |attributes| && Through(r, attributes[i], e) {
      assert i in at;
      var k :| 0 <= k < |at| && at[k] == i;
      assert edges[k] == e;
    }
  }

  lemma ChildIff(r: Registry, tid: TypeId, types: seq<TypeId>, at: seq<nat>, edges: seq<Edge>, e: Edge)
    requires ToChildren(r, tid, types, at, edges)
    ensures e in edges <==> Named(r, e) && e.target in types && (e.target, tid) in r.childOf
  {
    if e in edges {
      var k :| 0 <= k < |edges| && edges[k] == e;
      assert at[k] in at;
    }
    if Named(r, e) && e.target in types && (e.target, tid) in r.childOf {
      var i :| 0 <= i < |types| && types[i] == e.target;
      assert i in at;
      var k :| 0 <= k < |at| && at[k] == i;
      assert edges[k] == e;
    }
  }

  lemma AggregateIff(r: Registry, tid: TypeId, items: seq<(TypeId, TypeId)>, at: seq<nat>, edges: seq<Edge>, e: Edge)
    requires ToAggregates(r, tid, items, at, edges)
    ensures e in edges <==> Named(r, e) && exists i :: 0 <= i < |items| && Joins(items[i], tid, e.target)
  {
    if e in edges {
      var k :| 0 <= k < |edges| && edges[k] == e;
      assert Joins(items[at[k]], tid, e.target);
    }
    if Named(r, e) {
      if i :| 0 <= i < |items| && Joins(items[i], tid, e.target) {
        assert i in at;
        var k :| 0 <= k < |at| && at[k] == i;
        assert edges[k] == e;
      }
    }
  }
}
