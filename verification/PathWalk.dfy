/** A depth-first walk with an explicit stack over a labelled, possibly cyclic graph of types. */
module PathWalk {
  import opened Sequences

  type TypeId = nat

  datatype Edge = Edge(step: string, target: TypeId)

  datatype Entry = Entry(tid: TypeId, path: string)

  /** The edges out of every type, all leading to types of the graph. */
  type Graph = g: map<TypeId, seq<Edge>> | Closed(g) witness map[]

  ghost predicate Closed(g: map<TypeId, seq<Edge>>) {
    forall t :: t in g ==> Targets(g, g[t])
  }

  ghost predicate Targets(g: map<TypeId, seq<Edge>>, edges: seq<Edge>) {
    forall i :: 0 <= i < |edges| ==> edges[i].target in g
  }

  /** Types not on the stack: the bound on the recursion. */
  ghost function Remaining(g: Graph, stack: seq<TypeId>): set<TypeId> {
    set t | t in g.Keys && t !in stack
  }

  function PathString(path: seq<string>): string {
    if path == [] then "" else PathString(path[..|path| - 1]) + "/" + path[|path| - 1]
  }

  /** One step is written after a slash, and paths are written one after the other. */
  lemma {:induction false} PathStringMeans(a: seq<string>, b: seq<string>, step: string)
    ensures PathString([]) == "" && PathString([step]) == "/" + step
    ensures PathString(a + b) == PathString(a) + PathString(b)
  {
    assert [step][..0] == [] && "" + "/" + step == "/" + step;
    if b == [] {
      assert a + b == a;
    } else {
      var n := |b| - 1;
      PathStringMeans(a, b[..n], step);
      assert (a + b)[..|a + b| - 1] == a + b[..n];
      assert PathString(a) + PathString(b[..n]) + "/" + b[n] == PathString(a) + (PathString(b[..n]) + "/" + b[n]);
    }
  }

  /** The entries appended by one call: none for a type on the stack, otherwise the type
      itself and then the entries beyond each of its edges. */
  ghost function Visit(g: Graph, tid: TypeId, stack: seq<TypeId>, path: seq<string>): seq<Entry>
    requires tid in g
    decreases Remaining(g, stack), 0, 0
  {
    if tid in stack then []
    else
      assert tid in Remaining(g, stack) && tid !in Remaining(g, stack + [tid]);
      [Entry(tid, PathString(path))] + VisitEdges(g, g[tid], stack + [tid], path)
  }

  ghost function VisitEdges(g: Graph, edges: seq<Edge>, stack: seq<TypeId>, path: seq<string>): seq<Entry>
    requires Targets(g, edges)
    decreases Remaining(g, stack), 1, |edges|
  {
    if edges == [] then []
    else
      var e := edges[|edges| - 1];
      VisitEdges(g, edges[..|edges| - 1], stack, path) + Visit(g, e.target, stack, path + [e.step])
  }

  lemma VisitOneMore(g: Graph, edges: seq<Edge>, e: Edge, stack: seq<TypeId>, path: seq<string>)
    requires Targets(g, edges) && e.target in g
    ensures Targets(g, edges + [e])
    ensures VisitEdges(g, edges + [e], stack, path) ==
      VisitEdges(g, edges, stack, path) + Visit(g, e.target, stack, path + [e.step])
  {
    assert (edges + [e])[..|edges|] == edges;
  }

  /** A type off the stack, once recorded, is visited by walking beyond all its edges. */
  lemma VisitAppended(g: Graph, tid: TypeId, stack: seq<TypeId>, path: seq<string>, out: seq<Entry>)
    requires tid in g && tid !in stack
    ensures (out + [Entry(tid, PathString(path))]) + VisitEdges(g, g[tid], stack + [tid], path)
      == out + Visit(g, tid, stack, path)
  {
    Regroup(out, [Entry(tid, PathString(path))], VisitEdges(g, g[tid], stack + [tid], path));
  }
}
