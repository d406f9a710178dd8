/** The object that gathers configuration paths, pushing and popping its two stacks. */
module ConfigGatherer {
  import opened ConfigPaths
  import opened PathWalk
  import opened Sequences
  import opened SimplePaths

  function PathsOf(output: seq<Entry>, tid: TypeId): seq<string> {
    if output == [] then []
    else
      var last := output[|output| - 1];
      PathsOf(output[..|output| - 1], tid) + if last.tid == tid then [last.path] else []
  }

  /** The paths are those of the entries at the given places, which are all the places of the type. */
  ghost predicate PathsAt(output: seq<Entry>, tid: TypeId, at: seq<nat>, paths: seq<string>) {
    && Lists(at, set i | 0 <= i < |output| && output[i].tid == tid) && |paths| == |at|
    && forall k :: 0 <= k < |at| ==> at[k] < |output| && paths[k] == output[at[k]].path
  }

  lemma {:induction false} PathsInOrder(output: seq<Entry>, tid: TypeId) returns (at: seq<nat>)
    ensures PathsAt(output, tid, at, PathsOf(output, tid))
  {
    at := [];
    if output != [] {
      var n := |output| - 1;
      var init := PathsInOrder(output[..n], tid);
      at := OneMorePath(output, tid, init);
    }
  }

  lemma OneMorePath(output: seq<Entry>, tid: TypeId, init: seq<nat>) returns (at: seq<nat>)
    requires output != [] && PathsAt(output[..|output| - 1], tid, init, PathsOf(output[..|output| - 1], tid))
    ensures PathsAt(output, tid, at, PathsOf(output, tid))
  {
    var n := |output| - 1;
    var before := set i | 0 <= i < n && output[..n][i].tid == tid;
    if output[n].tid == tid {
      ListsOneMore(init, before, n);
      at := init + [n];
      assert before + {n} == set i | 0 <= i < |output| && output[i].tid == tid;
    } else {
      at := init;
      assert before == set i | 0 <= i < |output| && output[i].tid == tid;
    }
  }

  /** The gatherer. Its two stacks are pushed and popped around every recursive call. */
  class StaticInformation {
    const types: SoundRegistry
    var output: seq<Entry>
    var currentPath: seq<string>
    var alreadyProcessed: seq<TypeId>

    constructor (types: SoundRegistry)
      ensures this.types == types && output == [] && currentPath == [] && alreadyProcessed == []
    {
      this.types := types;
      output, currentPath, alreadyProcessed := [], [], [];
    }

    method GetCurrentPath() returns (oss: string)
      ensures oss == PathString(currentPath)
    {
      oss := "";
      for i := 0 to |currentPath|
        invariant oss == PathString(currentPath[..i])
      {
        assert currentPath[..i + 1][..i] == currentPath[..i];
        oss := oss + "/" + currentPath[i];
      }
      assert currentPath[..|currentPath|] == currentPath;
    }

    method RecordOutput(tid: TypeId)
      modifies this`output
      ensures output == old(output) + [Entry(tid, PathString(currentPath))]
    {
      var path := GetCurrentPath();
      output := output + [Entry(tid, path)];
    }

    method HasAlreadyBeenProcessed(tid: TypeId) returns (found: bool)
      ensures found <==> tid in alreadyProcessed
    {
      for i := 0 to |alreadyProcessed|
        invariant tid !in alreadyProcessed[..i]
      {
        if alreadyProcessed[i] == tid {
          return true;
        }
        assert alreadyProcessed[..i + 1] == alreadyProcessed[..i] + [alreadyProcessed[i]];
      }
      assert alreadyProcessed[..|alreadyProcessed|] == alreadyProcessed;
      return false;
    }

    /** The recorded paths of one type, in order. */
    method Get(tid: TypeId) returns (paths: seq<string>)
      ensures paths == PathsOf(output, tid)
    {
      paths := [];
      for i := 0 to |output|
        invariant paths == PathsOf(output[..i], tid)
      {
        assert output[..i + 1][..i] == output[..i];
        if output[i].tid == tid {
          paths := paths + [output[i].path];
        }
      }
      assert output[..|output|] == output;
    }

    /** What has been appended since out0 is the walk beyond the given edges of tid. */
    ghost predicate Gathered(tid: TypeId, out0: seq<Entry>, edges: seq<Edge>)
      reads this
    {
      Targets(GraphOf(types), edges) && output == out0 + VisitEdges(GraphOf(types), edges, alreadyProcessed + [tid], currentPath)
    }

    /** Push the edge and the type, gather beyond the edge, pop both. */
    method GatherBeyond(tid: TypeId, e: Edge)
      requires e.target in types.registered
      requires tid in types.registered && tid !in alreadyProcessed
      modifies this
      ensures currentPath == old(currentPath) && alreadyProcessed == old(alreadyProcessed)
      ensures output == old(output) + Visit(GraphOf(types), e.target, alreadyProcessed + [tid], currentPath + [e.step])
      decreases Remaining(GraphOf(types), alreadyProcessed), 0
    {
      StackGrows(GraphOf(types), tid, alreadyProcessed);
      currentPath := currentPath + [e.step];
      alreadyProcessed := alreadyProcessed + [tid];
      DoGather(e.target);
      alreadyProcessed := alreadyProcessed[..|alreadyProcessed| - 1];
      currentPath := currentPath[..|currentPath| - 1];
    }

    /** The same, accounting for one more edge of tid. */
    method Follow(tid: TypeId, e: Edge, ghost out0: seq<Entry>, ghost edges: seq<Edge>)
      requires e.target in types.registered
      requires tid in types.registered && tid !in alreadyProcessed && Gathered(tid, out0, edges)
      modifies this
      ensures currentPath == old(currentPath) && alreadyProcessed == old(alreadyProcessed)
      ensures Gathered(tid, out0, edges + [e])
      decreases Remaining(GraphOf(types), alreadyProcessed), 1
    {
      VisitOneMore(GraphOf(types), edges, e, alreadyProcessed + [tid], currentPath);
      ghost var before := VisitEdges(GraphOf(types), edges, alreadyProcessed + [tid], currentPath);
      ghost var more := Visit(GraphOf(types), e.target, alreadyProcessed + [tid], currentPath + [e.step]);
      GatherBeyond(tid, e);
      Regroup(out0, before, more);
    }

    method FollowAttributes(tid: TypeId, ghost out0: seq<Entry>)
      requires tid in types.registered && tid !in alreadyProcessed && Gathered(tid, out0, [])
      modifies this
      ensures currentPath == old(currentPath) && alreadyProcessed == old(alreadyProcessed)
      ensures Gathered(tid, out0, AttributeEdges(types, types.attributes[tid]))
      decreases Remaining(GraphOf(types), alreadyProcessed), 2
    {
      var attributes := types.attributes[tid];
      for i := 0 to |attributes|
        invariant currentPath == old(currentPath) && alreadyProcessed == old(alreadyProcessed)
        invariant Gathered(tid, out0, AttributeEdges(types, attributes[..i]))
      {
        ghost var edges := AttributeEdges(types, attributes[..i]);
        AttributeEdgesNext(types, attributes, i);
        match attributes[i] {
          case Pointer(name, pointee) =>
            if pointee == types.objectType {
              continue;
            }
            Follow(tid, Edge(name, pointee), out0, edges);
          case Container(name, item) =>
            Follow(tid, Edge(name + "/[i]", item), out0, edges);
          case Plain(_) =>
        }
      }
      assert attributes[..|attributes|] == attributes;
    }

    method FollowChildren(tid: TypeId, ghost out0: seq<Entry>, ghost edges0: seq<Edge>)
      requires tid in types.registered && tid !in alreadyProcessed && Gathered(tid, out0, edges0)
      modifies this
      ensures currentPath == old(currentPath) && alreadyProcessed == old(alreadyProcessed)
      ensures Gathered(tid, out0, edges0 + ChildEdges(types, tid, types.registered))
      decreases Remaining(GraphOf(types), alreadyProcessed), 2
    {
      assert edges0 + [] == edges0;
      for j := 0 to |types.registered|
        invariant currentPath == old(currentPath) && alreadyProcessed == old(alreadyProcessed)
        invariant Gathered(tid, out0, edges0 + ChildEdges(types, tid, types.registered[..j]))
      {
        var child := types.registered[j];
        ghost var edges := edges0 + ChildEdges(types, tid, types.registered[..j]);
        ChildEdgesNext(types, tid, j, edges0);
        if (child, tid) in types.childOf {
          Follow(tid, TypeEdge(types, child), out0, edges);
        }
      }
      assert types.registered[..|types.registered|] == types.registered;
    }

    method FollowAggregates(tid: TypeId, ghost out0: seq<Entry>, ghost edges0: seq<Edge>)
      requires tid in types.registered && tid !in alreadyProcessed && Gathered(tid, out0, edges0)
      modifies this
      ensures currentPath == old(currentPath) && alreadyProcessed == old(alreadyProcessed)
      ensures Gathered(tid, out0, edges0 + AggregateEdges(types, tid, types.aggregates))
      decreases Remaining(GraphOf(types), alreadyProcessed), 2
    {
      assert edges0 + [] == edges0;
      for k := 0 to |types.aggregates|
        invariant currentPath == old(currentPath) && alreadyProcessed == old(alreadyProcessed)
        invariant Gathered(tid, out0, edges0 + AggregateEdges(types, tid, types.aggregates[..k]))
      {
        var item := types.aggregates[k];
        ghost var edges := edges0 + AggregateEdges(types, tid, types.aggregates[..k]);
        AggregateEdgesNext(types, tid, k, edges0);
        if item.0 == tid || item.1 == tid {
          var other := 0;
          if item.0 == tid {
            other := item.1;
          }
          if item.1 == tid {
            other := item.0;
          }
          assert AggregateEdge(types, tid, item) == [TypeEdge(types, other)];
          Follow(tid, TypeEdge(types, other), out0, edges);
        }
      }
      assert types.aggregates[..|types.aggregates|] == types.aggregates;
    }

    /** The walk: it restores both stacks and appends exactly the entries of Visit. */
    method DoGather(tid: TypeId)
      requires tid in types.registered
      modifies this
      ensures currentPath == old(currentPath) && alreadyProcessed == old(alreadyProcessed)
      ensures output == old(output) + Visit(GraphOf(types), tid, alreadyProcessed, currentPath)
      decreases Remaining(GraphOf(types), alreadyProcessed), 3
    {
      var found := HasAlreadyBeenProcessed(tid);
      if found {
        return;
      }
      VisitAppended(GraphOf(types), tid, alreadyProcessed, currentPath, output);
      RecordOutput(tid);
      ghost var out0 := output;
      assert Gathered(tid, out0, []);
      FollowAttributes(tid, out0);
      ghost var edges := AttributeEdges(types, types.attributes[tid]);
      FollowChildren(tid, out0, edges);
      FollowAggregates(tid, out0, edges + ChildEdges(types, tid, types.registered));
    }

    /** The entry point, called with empty stacks: one entry for each edge path from the root that
        repeats no type, in order, and nothing else. */
    method Gather(tid: TypeId)
      requires tid in types.registered && currentPath == [] && alreadyProcessed == []
      modifies this
      ensures currentPath == [] && alreadyProcessed == []
      ensures output == old(output) + Render(GraphOf(types), tid, [], Trails(GraphOf(types), tid, []))
      ensures Distinct(Trails(GraphOf(types), tid, []))
      ensures forall t :: t in Trails(GraphOf(types), tid, []) <==> SimpleTrail(GraphOf(types), tid, [], t)
    {
      DoGather(tid);
      GatherListsSimplePaths(GraphOf(types), tid);
    }
  }
}
