/** The stack-based enumeration of all elementary cycles of a parent -> children map. */
module FindCycles {
  import opened Digraph
  import opened Rotation
  import opened Sequences
  import Topsort

  type Graph<T(==)> = map<T, seq<T>>

  ghost function GraphEdges<T>(g: Graph<T>): Edges<T> {
    set p, c | p in g && c in g[p] :: (p, c)
  }

  ghost function Nodes<T>(g: Graph<T>): set<T> {
    g.Keys + set p, c | p in g && c in g[p] :: c
  }

  lemma EdgeMeaning<T>(g: Graph<T>, a: T, b: T)
    ensures (a, b) in GraphEdges(g) <==> a in g && b in g[a]
  {
  }

  function Last<T>(p: seq<T>): T
    requires p != []
  {
    p[|p| - 1]
  }

  /** Some reported cycle is c up to rotation. */
  ghost predicate Recorded<T>(cycles: seq<seq<T>>, c: seq<T>) {
    exists i :: 0 <= i < |cycles| && IsRotation(cycles[i], c)
  }

  /** Every report is an elementary cycle and no report rotates into another. */
  ghost predicate SoundReports<T>(g: Graph<T>, cycles: seq<seq<T>>) {
    && (forall i :: 0 <= i < |cycles| ==> ElementaryCycle(GraphEdges(g), cycles[i]))
    && (forall i, j :: 0 <= i < |cycles| && 0 <= j < |cycles| && i != j ==> !IsRotation(cycles[i], cycles[j]))
  }

  /** Every cycle that one edge from the end of q closes has been recorded. */
  ghost predicate Explored<T>(g: Graph<T>, cycles: seq<seq<T>>, q: seq<T>) {
    q != [] && Last(q) in g ==>
      forall m :: 0 <= m < |q| && q[m] in g[Last(q)] ==> Recorded(cycles, q[m..])
  }

  /** Every simple path from root is explored or still has a prefix on the stack. */
  ghost predicate Covered<T(!new)>(g: Graph<T>, root: T, paths: seq<seq<T>>, cycles: seq<seq<T>>) {
    forall q: seq<T> {:trigger SimplePath(GraphEdges(g), q)} :: SimplePath(GraphEdges(g), q) && q[0] == root ==>
      Explored(g, cycles, q) || PrefixOnStack(paths, q)
  }

  ghost predicate PrefixOnStack<T>(paths: seq<seq<T>>, q: seq<T>) {
    exists i :: 0 <= i < |paths| && paths[i] <= q
  }

  ghost predicate AllExplored<T(!new)>(g: Graph<T>, roots: set<T>, cycles: seq<seq<T>>) {
    forall q: seq<T> {:trigger SimplePath(GraphEdges(g), q)} :: SimplePath(GraphEdges(g), q) && q[0] in roots ==>
      Explored(g, cycles, q)
  }

  /** Some simple path leads from a root to v. */
  ghost predicate FoundFrom<T(!new)>(g: Graph<T>, roots: set<T>, v: T) {
    exists q: seq<T> :: SimplePath(GraphEdges(g), q) && q[0] in roots && Last(q) == v
  }

  ghost predicate StackFits<T>(g: Graph<T>, root: T, paths: seq<seq<T>>) {
    forall i :: 0 <= i < |paths| ==> PathFits(g, paths[i]) && paths[i][0] == root
  }

  ghost predicate PathFits<T>(g: Graph<T>, p: seq<T>) {
    SimplePath(GraphEdges(g), p) && forall x :: x in p ==> x in Nodes(g)
  }

  lemma ExtensionFits<T>(g: Graph<T>, p: seq<T>, c: T)
    requires PathFits(g, p) && Last(p) in g && c in g[Last(p)] && c !in p
    ensures PathFits(g, p + [c]) && |p| < |Nodes(g)|
  {
    assert (Last(p), c) in GraphEdges(g);
    WalksCompose(GraphEdges(g), p, [c]);
    DistinctFits(p + [c], Nodes(g));
  }

  /** The number of simple paths that extend p, p itself included: the work its removal
      from the stack stands for. */
  ghost function Weight<T>(g: Graph<T>, p: seq<T>): nat
    requires PathFits(g, p)
    decreases |Nodes(g)| - |p|, 1, 0
  {
    if Last(p) in g then 1 + KidsWeight(g, p, |g[Last(p)]|) else 1
  }

  ghost function KidsWeight<T>(g: Graph<T>, p: seq<T>, k: nat): nat
    requires PathFits(g, p) && Last(p) in g && k <= |g[Last(p)]|
    decreases |Nodes(g)| - |p|, 0, k
  {
    if k == 0 then 0
    else
      var c := g[Last(p)][k - 1];
      KidsWeight(g, p, k - 1) + if c in p then 0 else (ExtensionFits(g, p, c); Weight(g, p + [c]))
  }

  ghost function StackWeight<T>(g: Graph<T>, paths: seq<seq<T>>): nat
    requires forall i :: 0 <= i < |paths| ==> PathFits(g, paths[i])
  {
    if paths == [] then 0
    else StackWeight(g, paths[..|paths| - 1]) + Weight(g, paths[|paths| - 1])
  }

  lemma StackWeightPush<T>(g: Graph<T>, paths: seq<seq<T>>, p: seq<T>)
    requires forall i :: 0 <= i < |paths| ==> PathFits(g, paths[i])
    requires PathFits(g, p)
    ensures forall i :: 0 <= i < |paths + [p]| ==> PathFits(g, (paths + [p])[i])
    ensures StackWeight(g, paths + [p]) == StackWeight(g, paths) + Weight(g, p)
  {
    assert (paths + [p])[..|paths|] == paths;
  }

  lemma RecordedGrows<T>(cycles: seq<seq<T>>, more: seq<seq<T>>, c: seq<T>)
    requires cycles <= more && Recorded(cycles, c)
    ensures Recorded(more, c)
  {
    var i :| 0 <= i < |cycles| && IsRotation(cycles[i], c);
    assert more[i] == cycles[i];
  }

  lemma ExploredGrows<T>(g: Graph<T>, cycles: seq<seq<T>>, more: seq<seq<T>>, q: seq<T>)
    requires cycles <= more && Explored(g, cycles, q)
    ensures Explored(g, more, q)
  {
    if q != [] && Last(q) in g {
      forall m | 0 <= m < |q| && q[m] in g[Last(q)] ensures Recorded(more, q[m..]) {
        RecordedGrows(cycles, more, q[m..]);
      }
    }
  }

  function IndexOf<T(==)>(path: seq<T>, child: T): (i: nat)
    requires child in path
    ensures i < |path| && path[i] == child && child !in path[..i]
  {
    if path[0] == child then 0 else 1 + IndexOf(path[1..], child)
  }

  /** An edge from the end of a simple path back into it closes an elementary cycle. */
  lemma ClosingEdgeMakesCycle<T>(g: Graph<T>, path: seq<T>, m: nat)
    requires PathFits(g, path) && m < |path| && Last(path) in g && path[m] in g[Last(path)]
    ensures ElementaryCycle(GraphEdges(g), path[m..])
  {
    SubwalkIsWalk(GraphEdges(g), path, m, |path|);
    assert path[m..|path|] == path[m..];
    assert (Last(path), path[m]) in GraphEdges(g);
  }

  /** The duplicate check: append the cycle unless it rotates into an earlier report. */
  method RecordCycle<T(==)>(ghost g: Graph<T>, cycles0: seq<seq<T>>, cycle: seq<T>) returns (cycles: seq<seq<T>>)
    requires SoundReports(g, cycles0) && ElementaryCycle(GraphEdges(g), cycle)
    ensures cycles == if Recorded(cycles0, cycle) then cycles0 else cycles0 + [cycle]
    ensures SoundReports(g, cycles) && Recorded(cycles, cycle)
  {
    var isDup := false;
    var i := 0;
    while i < |cycles0| && !isDup
      invariant 0 <= i <= |cycles0|
      invariant isDup ==> Recorded(cycles0, cycle)
      invariant !isDup ==> forall j :: 0 <= j < i ==> !IsRotation(cycles0[j], cycle)
      decreases |cycles0| - i, !isDup
    {
      var answer := IsRotated(cycles0[i], cycle);
      if answer == Yes {
        isDup := true;
      } else {
        i := i + 1;
      }
    }
    cycles := cycles0;
    if !isDup {
      cycles := cycles + [cycle];
      forall j | 0 <= j < |cycles0| ensures !IsRotation(cycle, cycles0[j]) {
        if IsRotation(cycle, cycles0[j]) { RotationSymmetric(cycle, cycles0[j]); }
      }
      RotationReflexive(cycle);
      assert cycles[|cycles0|] == cycle;
    }
  }

  /** The state of the child loop after k children of the popped path. */
  ghost predicate ExpandState<T>(g: Graph<T>, path: seq<T>, k: int, below: seq<seq<T>>, paths: seq<seq<T>>,
                                 visited0: set<T>, visited: set<T>, cycles0: seq<seq<T>>, cycles: seq<seq<T>>)
    requires PathFits(g, path) && Last(path) in g
  {
    var kids := g[Last(path)];
    && 0 <= k <= |kids|
    && below <= paths
    && (forall i :: |below| <= i < |paths| ==>
        |paths[i]| == |path| + 1 && path <= paths[i] && Last(paths[i]) in kids && Last(paths[i]) !in path)
    && (forall j :: 0 <= j < k && kids[j] !in path ==> path + [kids[j]] in paths && kids[j] in visited)
    && (forall v :: v in visited ==> v in visited0 || (v in kids && v !in path))
    && visited0 <= visited
    && cycles0 <= cycles && SoundReports(g, cycles)
    && (forall j, m :: 0 <= j < k && 0 <= m < |path| && path[m] == kids[j] ==> Recorded(cycles, path[m..]))
  }

  /** With the stack's weight, which the children push back only in part. */
  ghost predicate ExpandLoop<T>(g: Graph<T>, path: seq<T>, k: int, below: seq<seq<T>>, paths: seq<seq<T>>,
                                visited0: set<T>, visited: set<T>, cycles0: seq<seq<T>>, cycles: seq<seq<T>>)
    requires PathFits(g, path) && Last(path) in g
    requires forall i :: 0 <= i < |below| ==> PathFits(g, below[i])
  {
    && ExpandState(g, path, k, below, paths, visited0, visited, cycles0, cycles)
    && (forall i :: 0 <= i < |paths| ==> PathFits(g, paths[i]))
    && StackWeight(g, paths) == StackWeight(g, below) + KidsWeight(g, path, k)
  }

  /** The child loop for one popped path: close cycles, push longer paths. */
  method Expand<T(==)>(g: Graph<T>, path: seq<T>, below: seq<seq<T>>, visited0: set<T>, cycles0: seq<seq<T>>)
    returns (paths: seq<seq<T>>, visited: set<T>, cycles: seq<seq<T>>)
    requires PathFits(g, path) && Last(path) in g && SoundReports(g, cycles0)
    requires forall i :: 0 <= i < |below| ==> PathFits(g, below[i])
    ensures ExpandState(g, path, |g[Last(path)]|, below, paths, visited0, visited, cycles0, cycles)
    ensures forall i :: 0 <= i < |paths| ==> PathFits(g, paths[i])
    ensures StackWeight(g, paths) < StackWeight(g, below) + Weight(g, path)
  {
    paths, visited, cycles := below, visited0, cycles0;
    var children := g[Last(path)];
    for k := 0 to |children|
      invariant ExpandLoop(g, path, k, below, paths, visited0, visited, cycles0, cycles)
    {
      var child := children[k];
      if child in path {
        cycles := CloseCycle(g, path, k, below, paths, visited0, visited, cycles0, cycles);
      } else {
        PushLoop(g, path, k, below, paths, visited0, visited, cycles0, cycles);
        paths := paths + [path + [child]];
        visited := visited + {child};
      }
    }
  }

  /** A child already on the path: cut the cycle out and record it. */
  method CloseCycle<T(==)>(g: Graph<T>, path: seq<T>, k: nat, ghost below: seq<seq<T>>, ghost paths: seq<seq<T>>,
                           ghost visited0: set<T>, ghost visited: set<T>, ghost cycles0: seq<seq<T>>,
                           before: seq<seq<T>>)
    returns (cycles: seq<seq<T>>)
    requires PathFits(g, path) && Last(path) in g && k < |g[Last(path)]| && g[Last(path)][k] in path
    requires forall i :: 0 <= i < |below| ==> PathFits(g, below[i])
    requires ExpandLoop(g, path, k, below, paths, visited0, visited, cycles0, before)
    ensures ExpandLoop(g, path, k + 1, below, paths, visited0, visited, cycles0, cycles)
  {
    var start := IndexOf(path, g[Last(path)][k]);
    ClosingEdgeMakesCycle(g, path, start);
    cycles := RecordCycle(g, before, path[start..]);
    CloseStep(g, path, k, below, paths, visited0, visited, cycles0, before, cycles, start);
  }

  lemma PushLoop<T>(g: Graph<T>, path: seq<T>, k: nat, below: seq<seq<T>>, paths: seq<seq<T>>,
                    visited0: set<T>, visited: set<T>, cycles0: seq<seq<T>>, cycles: seq<seq<T>>)
    requires PathFits(g, path) && Last(path) in g && k < |g[Last(path)]| && g[Last(path)][k] !in path
    requires forall i :: 0 <= i < |below| ==> PathFits(g, below[i])
    requires ExpandLoop(g, path, k, below, paths, visited0, visited, cycles0, cycles)
    ensures
      var child := g[Last(path)][k];
      ExpandLoop(g, path, k + 1, below, paths + [path + [child]], visited0, visited + {child}, cycles0, cycles)
  {
    var child := g[Last(path)][k];
    ExtensionFits(g, path, child);
    StackWeightPush(g, paths, path + [child]);
    PushStep(g, path, k, below, paths, visited0, visited, cycles0, cycles);
  }

  lemma CloseStep<T>(g: Graph<T>, path: seq<T>, k: nat, below: seq<seq<T>>, paths: seq<seq<T>>,
                     visited0: set<T>, visited: set<T>, cycles0: seq<seq<T>>, before: seq<seq<T>>, cycles: seq<seq<T>>, start: nat)
    requires PathFits(g, path) && Last(path) in g && k < |g[Last(path)]|
    requires ExpandState(g, path, k, below, paths, visited0, visited, cycles0, before)
    requires before <= cycles && SoundReports(g, cycles)
    requires start < |path| && path[start] == g[Last(path)][k] && Recorded(cycles, path[start..])
    ensures ExpandState(g, path, k + 1, below, paths, visited0, visited, cycles0, cycles)
  {
    var kids := g[Last(path)];
    forall j, m | 0 <= j < k + 1 && 0 <= m < |path| && path[m] == kids[j] ensures Recorded(cycles, path[m..]) {
      if j < k {
        RecordedGrows(before, cycles, path[m..]);
      } else {
        assert m == start;
      }
    }
  }

  lemma PushStep<T>(g: Graph<T>, path: seq<T>, k: nat, below: seq<seq<T>>, paths: seq<seq<T>>,
                    visited0: set<T>, visited: set<T>, cycles0: seq<seq<T>>, cycles: seq<seq<T>>)
    requires PathFits(g, path) && Last(path) in g && k < |g[Last(path)]| && g[Last(path)][k] !in path
    requires ExpandState(g, path, k, below, paths, visited0, visited, cycles0, cycles)
    ensures
      var child := g[Last(path)][k];
      ExpandState(g, path, k + 1, below, paths + [path + [child]], visited0, visited + {child}, cycles0, cycles)
  {
    var kids := g[Last(path)];
    var child := kids[k];
    var longer := paths + [path + [child]];
    assert longer[|paths|] == path + [child];
    assert Last(path + [child]) == child;
    forall i | |below| <= i < |longer|
      ensures |longer[i]| == |path| + 1 && path <= longer[i] && Last(longer[i]) in kids && Last(longer[i]) !in path
    {
      if i < |paths| { assert longer[i] == paths[i]; }
    }
    forall j | 0 <= j < k + 1 && kids[j] !in path
      ensures path + [kids[j]] in longer && kids[j] in visited + {child}
    {
      if j < k { assert path + [kids[j]] in paths; }
    }
    forall j, m | 0 <= j < k + 1 && 0 <= m < |path| && path[m] == kids[j] ensures Recorded(cycles, path[m..]) {
      assert j < k;
    }
  }

  /** Popping a path and expanding it covers what the path covered. */
  lemma ExpandCovers<T(!new)>(g: Graph<T>, root: T, path: seq<T>, below: seq<seq<T>>, paths: seq<seq<T>>,
                              visited0: set<T>, visited: set<T>, cycles0: seq<seq<T>>, cycles: seq<seq<T>>)
    requires PathFits(g, path) && Last(path) in g
    requires ExpandState(g, path, |g[Last(path)]|, below, paths, visited0, visited, cycles0, cycles)
    requires Covered(g, root, below + [path], cycles0)
    ensures Covered(g, root, paths, cycles)
  {
    forall q: seq<T> | SimplePath(GraphEdges(g), q) && q[0] == root
      ensures Explored(g, cycles, q) || PrefixOnStack(paths, q)
    {
      if Explored(g, cycles0, q) {
        ExploredGrows(g, cycles0, cycles, q);
      } else {
        var i :| 0 <= i < |below + [path]| && (below + [path])[i] <= q;
        if i < |below| {
          assert paths[i] <= q;
        } else if q != path {
          NextStepPushed(g, path, below, paths, visited0, visited, cycles0, cycles, q);
        } else {
          forall m | 0 <= m < |q| && q[m] in g[Last(q)] ensures Recorded(cycles, q[m..]) {
            var j :| 0 <= j < |g[Last(q)]| && g[Last(q)][j] == q[m];
          }
        }
      }
    }
  }

  lemma NextStepPushed<T>(g: Graph<T>, path: seq<T>, below: seq<seq<T>>, paths: seq<seq<T>>,
                          visited0: set<T>, visited: set<T>, cycles0: seq<seq<T>>, cycles: seq<seq<T>>, q: seq<T>)
    requires PathFits(g, path) && Last(path) in g
    requires ExpandState(g, path, |g[Last(path)]|, below, paths, visited0, visited, cycles0, cycles)
    requires SimplePath(GraphEdges(g), q) && path <= q && q != path
    ensures PrefixOnStack(paths, q)
  {
    var n := |path|;
    assert path == q[..n];
    assert (q[n - 1], q[n]) in GraphEdges(g);
    EdgeMeaning(g, q[n - 1], q[n]);
    assert q[n] !in path;
    var j :| 0 <= j < |g[Last(path)]| && g[Last(path)][j] == q[n];
    assert path + [q[n]] == q[..n + 1];
    var i :| 0 <= i < |paths| && paths[i] == path + [q[n]];
    assert paths[i] <= q;
  }

  /** A popped path whose end is not a key closes nothing and extends nowhere. */
  lemma DeadEndCovers<T(!new)>(g: Graph<T>, root: T, path: seq<T>, below: seq<seq<T>>, cycles: seq<seq<T>>)
    requires PathFits(g, path) && Last(path) !in g
    requires Covered(g, root, below + [path], cycles)
    ensures Covered(g, root, below, cycles)
  {
    forall q: seq<T> | SimplePath(GraphEdges(g), q) && q[0] == root
      ensures Explored(g, cycles, q) || PrefixOnStack(below, q)
    {
      if path <= q {
        NothingPastDeadEnd(g, path, q);
      } else if !Explored(g, cycles, q) {
        var i :| 0 <= i < |below + [path]| && (below + [path])[i] <= q;
        assert below[i] <= q;
      }
    }
  }

  lemma NothingPastDeadEnd<T>(g: Graph<T>, path: seq<T>, q: seq<T>)
    requires path != [] && Last(path) !in g
    requires SimplePath(GraphEdges(g), q) && path <= q
    ensures q == path
  {
    var n := |path|;
    if n < |q| {
      assert path[n - 1] == q[n - 1];
      EdgeMeaning(g, q[n - 1], q[n]);
    }
  }

  /** Exhaust the simple paths from one root. */
  method ExploreRoot<T(==,!new)>(g: Graph<T>, root: T, visited0: set<T>, cycles0: seq<seq<T>>)
    returns (visited: set<T>, cycles: seq<seq<T>>)
    requires root in g && SoundReports(g, cycles0)
    ensures SoundReports(g, cycles) && cycles0 <= cycles
    ensures AllExplored(g, {root}, cycles)
    ensures visited0 <= visited
    ensures forall v :: v in visited ==> v in visited0 || FoundFrom(g, {root}, v)
  {
    visited, cycles := visited0, cycles0;
    var paths := [[root]];
    StartCovers(g, root, cycles);
    while paths != []
      invariant StackFits(g, root, paths)
      invariant Covered(g, root, paths, cycles)
      invariant SoundReports(g, cycles) && cycles0 <= cycles
      invariant visited0 <= visited
      invariant forall v :: v in visited ==> v in visited0 || FoundFrom(g, {root}, v)
      decreases StackWeight(g, paths)
    {
      var path, below := paths[|paths| - 1], paths[..|paths| - 1];
      assert paths == below + [path];
      ghost var weight := StackWeight(g, paths);
      assert weight == StackWeight(g, below) + Weight(g, path);
      if Last(path) in g {
        ghost var seen, before := visited, cycles;
        paths, visited, cycles := Expand(g, path, below, visited, cycles);
        ExpandCovers(g, root, path, below, paths, seen, visited, before, cycles);
        ExpandReaches(g, root, path, below, paths, seen, visited, before, cycles);
      } else {
        DeadEndCovers(g, root, path, below, cycles);
        paths := below;
      }
    }
  }

  lemma StartCovers<T(!new)>(g: Graph<T>, root: T, cycles: seq<seq<T>>)
    requires root in g
    ensures StackFits(g, root, [[root]]) && Covered(g, root, [[root]], cycles)
  {
    forall q: seq<T> | SimplePath(GraphEdges(g), q) && q[0] == root ensures PrefixOnStack([[root]], q) {
      assert [[root]][0] <= q;
    }
  }

  lemma ExpandReaches<T(!new)>(g: Graph<T>, root: T, path: seq<T>, below: seq<seq<T>>, paths: seq<seq<T>>,
                               visited0: set<T>, visited: set<T>, cycles0: seq<seq<T>>, cycles: seq<seq<T>>)
    requires PathFits(g, path) && Last(path) in g && path[0] == root
    requires ExpandState(g, path, |g[Last(path)]|, below, paths, visited0, visited, cycles0, cycles)
    requires StackFits(g, root, below) && forall i :: 0 <= i < |paths| ==> PathFits(g, paths[i])
    ensures StackFits(g, root, paths)
    ensures forall v :: v in visited ==> v in visited0 || FoundFrom(g, {root}, v)
  {
    forall v | v in visited && v !in visited0 ensures FoundFrom(g, {root}, v) {
      ExtensionFits(g, path, v);
      var q := path + [v];
      assert SimplePath(GraphEdges(g), q) && q[0] in {root} && Last(q) == v;
    }
    forall i | 0 <= i < |paths| ensures paths[i][0] == root {
      if i < |below| { assert paths[i] == below[i]; }
    }
  }

  /** The keys of the dictionary in whatever order it lists them. */
  method KeysInSomeOrder<T(==), U>(m: map<T, U>) returns (keys: seq<T>)
    ensures forall x :: x in keys ==> x in m
    ensures forall x :: x in m ==> x in keys
  {
    keys := [];
    var rest := m.Keys;
    while rest != {}
      invariant rest <= m.Keys
      invariant forall x :: x in keys ==> x in m
      invariant forall x :: x in m ==> x in keys || x in rest
      decreases rest
    {
      var x :| x in rest;
      keys, rest := keys + [x], rest - {x};
    }
  }

  /** All elementary cycles, each exactly once up to rotation. */
  method FindCycles<T(==,!new)>(parentChildren: Graph<T>) returns (cycles: seq<seq<T>>)
    ensures SoundReports(parentChildren, cycles)
    ensures forall c: seq<T> :: ElementaryCycle(GraphEdges(parentChildren), c) ==> Recorded(cycles, c)
  {
    cycles := [];
    var visited: set<T> := {};
    ghost var roots: set<T> := {};
    var keys := KeysInSomeOrder(parentChildren);
    for i := 0 to |keys|
      invariant SoundReports(parentChildren, cycles)
      invariant AllExplored(parentChildren, roots, cycles)
      invariant forall v :: v in visited ==> FoundFrom(parentChildren, roots, v)
      invariant forall j :: 0 <= j < i ==> keys[j] in roots || keys[j] in visited
    {
      var parent := keys[i];
      if parent in visited {
        continue;
      }
      assert parent in keys;
      ghost var seen, before := visited, cycles;
      visited, cycles := ExploreRoot(parentChildren, parent, visited, cycles);
      OneMoreRoot(parentChildren, roots, parent, before, cycles, seen, visited);
      roots := roots + {parent};
    }
    forall c: seq<T> | ElementaryCycle(GraphEdges(parentChildren), c) ensures Recorded(cycles, c) {
      EveryKeyFound(parentChildren, roots, visited, keys);
      CycleRecorded(parentChildren, roots, cycles, c);
    }
  }

  /** A graph yields no report exactly when it has no closed walk. */
  lemma SilentIffAcyclic<T(!new)>(g: Graph<T>, cycles: seq<seq<T>>)
    requires SoundReports(g, cycles)
    requires forall c: seq<T> :: ElementaryCycle(GraphEdges(g), c) ==> Recorded(cycles, c)
    ensures cycles == [] <==> Acyclic(GraphEdges(g))
  {
    AcyclicMeansNoElementaryCycle(GraphEdges(g));
    if cycles != [] {
      assert ElementaryCycle(GraphEdges(g), cycles[0]);
    } else {
      forall c: seq<T> ensures !ElementaryCycle(GraphEdges(g), c) {
        assert !Recorded(cycles, c);
      }
    }
  }

  /** The pairs list exactly the edges of the graph, in any order and any number of times. */
  ghost predicate Lists<T(!new)>(pairs: seq<(T, T)>, g: Graph<T>) {
    forall p, c {:trigger (p, c) in pairs} :: (p, c) in pairs <==> p in g && c in g[p]
  }

  /** The two scripts agree: no cycle is reported exactly when sorting the pairs succeeds. */
  lemma SilentIffSorted<T(!new)>(g: Graph<T>, cycles: seq<seq<T>>, pairs: seq<(T, T)>, r: Topsort.Outcome<T>)
    requires SoundReports(g, cycles)
    requires forall c: seq<T> :: ElementaryCycle(GraphEdges(g), c) ==> Recorded(cycles, c)
    requires Lists(pairs, g)
    requires r.Sorted? <==> Acyclic(Topsort.EdgesOf(pairs))
    ensures cycles == [] <==> r.Sorted?
  {
    SilentIffAcyclic(g, cycles);
    forall p, c ensures (p, c) in GraphEdges(g) <==> (p, c) in Topsort.EdgesOf(pairs) {
      EdgeMeaning(g, p, c);
      assert (p, c) in Topsort.EdgesOf(pairs) <==> (p, c) in pairs;
    }
    forall e: (T, T) ensures e in GraphEdges(g) <==> e in Topsort.EdgesOf(pairs) {
      assert e == (e.0, e.1);
    }
    assert GraphEdges(g) == Topsort.EdgesOf(pairs);
  }

  lemma OneMoreRoot<T(!new)>(g: Graph<T>, roots: set<T>, root: T, before: seq<seq<T>>, cycles: seq<seq<T>>,
                             seen: set<T>, visited: set<T>)
    requires AllExplored(g, roots, before) && before <= cycles && AllExplored(g, {root}, cycles)
    requires forall v :: v in seen ==> FoundFrom(g, roots, v)
    requires forall v :: v in visited ==> v in seen || FoundFrom(g, {root}, v)
    ensures AllExplored(g, roots + {root}, cycles)
    ensures forall v :: v in visited ==> FoundFrom(g, roots + {root}, v)
  {
    forall q: seq<T> | SimplePath(GraphEdges(g), q) && q[0] in roots + {root} ensures Explored(g, cycles, q) {
      if q[0] in roots { ExploredGrows(g, before, cycles, q); }
    }
    forall v | v in visited ensures FoundFrom(g, roots + {root}, v) {
      if v in seen {
        var q: seq<T> :| SimplePath(GraphEdges(g), q) && q[0] in roots && Last(q) == v;
        assert q[0] in roots + {root};
      } else {
        var q: seq<T> :| SimplePath(GraphEdges(g), q) && q[0] in {root} && Last(q) == v;
        assert q[0] in roots + {root};
      }
    }
  }

  lemma EveryKeyFound<T(!new)>(g: Graph<T>, roots: set<T>, visited: set<T>, keys: seq<T>)
    requires forall x :: x in g ==> x in keys
    requires forall v :: v in visited ==> FoundFrom(g, roots, v)
    requires forall j :: 0 <= j < |keys| ==> keys[j] in roots || keys[j] in visited
    ensures forall x :: x in g ==> FoundFrom(g, roots, x)
  {
    forall x | x in g ensures FoundFrom(g, roots, x) {
      if x in roots {
        var q := [x];
        assert SimplePath(GraphEdges(g), q) && q[0] in roots && Last(q) == x;
      }
    }
  }

  /** Although visited roots are skipped, every elementary cycle is met: follow a simple
      path from an explored root to where it first touches the cycle, then go round. */
  lemma CycleRecorded<T(!new)>(g: Graph<T>, roots: set<T>, cycles: seq<seq<T>>, c: seq<T>)
    requires AllExplored(g, roots, cycles) && forall x :: x in g ==> FoundFrom(g, roots, x)
    requires ElementaryCycle(GraphEdges(g), c)
    ensures Recorded(cycles, c)
  {
    CycleNodesAreKeys(g, c);
    var q: seq<T> :| SimplePath(GraphEdges(g), q) && q[0] in roots && Last(q) == c[0];
    var i := FirstTouch(q, c);
    var k :| 0 <= k < |c| && c[k] == q[i];
    var round := Rotate(c, k);
    RotationIsElementaryCycle(GraphEdges(g), c, k);
    LassoRecorded(g, roots, cycles, q, i, round);
    var n :| 0 <= n < |cycles| && IsRotation(cycles[n], round);
    assert IsRotation(c, round);
    RotationSymmetric(c, round);
    RotationTransitive(cycles[n], round, c);
  }

  /** A path that runs into a cycle and once round it is explored, and so the cycle recorded. */
  lemma LassoRecorded<T(!new)>(g: Graph<T>, roots: set<T>, cycles: seq<seq<T>>, q: seq<T>, i: nat, round: seq<T>)
    requires AllExplored(g, roots, cycles) && SimplePath(GraphEdges(g), q) && q[0] in roots && i < |q|
    requires ElementaryCycle(GraphEdges(g), round) && round[0] == q[i] && forall j :: 0 <= j < i ==> q[j] !in round
    ensures Recorded(cycles, round)
  {
    var p := q[..i] + round;
    LassoIsSimple(GraphEdges(g), q, i, round);
    assert p[i] == round[0] && Last(p) == Last(round);
    EdgeMeaning(g, Last(round), round[0]);
    assert Explored(g, cycles, p);
    assert p[i] in g[Last(p)];
    assert p[i..] == round;
  }

  lemma CycleNodesAreKeys<T>(g: Graph<T>, c: seq<T>)
    requires ElementaryCycle(GraphEdges(g), c)
    ensures c[0] in g
  {
    var next := if |c| == 1 then c[0] else c[1];
    assert (c[0], next) in GraphEdges(g);
    EdgeMeaning(g, c[0], next);
  }

  lemma {:induction false} FirstTouch<T>(q: seq<T>, c: seq<T>) returns (i: nat)
    requires q != [] && Last(q) in c
    ensures i < |q| && q[i] in c && forall j :: 0 <= j < i ==> q[j] !in c
  {
    if q[0] in c {
      i := 0;
    } else {
      var rest := FirstTouch(q[1..], c);
      i := rest + 1;
      forall j | 0 <= j < i ensures q[j] !in c {
        if j > 0 { assert q[1..][j - 1] !in c; }
      }
    }
  }

  lemma RotationIsElementaryCycle<T>(E: Edges<T>, c: seq<T>, k: nat)
    requires ElementaryCycle(E, c) && k < |c|
    ensures ElementaryCycle(E, Rotate(c, k))
    ensures forall x :: x in Rotate(c, k) ==> x in c
  {
    var r := Rotate(c, k);
    SubwalkIsWalk(E, c, k, |c|);
    assert c[k..|c|] == c[k..];
    if k > 0 {
      SubwalkIsWalk(E, c, 0, k);
      assert c[0..k] == c[..k];
      WalksCompose(E, c[k..], c[..k]);
      assert (c[k - 1], c[k]) in E;
      assert Last(r) == c[k - 1] && r[0] == c[k];
    } else {
      assert r == c;
    }
  }

  /** The stem up to the first touch followed by a full round is a simple path. */
  lemma LassoIsSimple<T>(E: Edges<T>, q: seq<T>, i: nat, round: seq<T>)
    requires SimplePath(E, q) && i < |q| && ElementaryCycle(E, round) && round[0] == q[i]
    requires forall j :: 0 <= j < i ==> q[j] !in round
    ensures SimplePath(E, q[..i] + round) && (q[..i] + round)[0] == q[0]
  {
    var p := q[..i] + round;
    if i > 0 {
      SubwalkIsWalk(E, q, 0, i);
      assert q[0..i] == q[..i];
      assert (q[i - 1], q[i]) in E;
      WalksCompose(E, q[..i], round);
    } else {
      assert p == round;
    }
    forall a, b | 0 <= a < b < |p| ensures p[a] != p[b] {
      if a < i && b >= i { assert round[b - i] in round; }
    }
  }
}
