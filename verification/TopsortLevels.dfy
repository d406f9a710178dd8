/** The level-by-level sort: each level holds the elements whose longest chain of
    predecessors has that length. */
module TopsortLevels {
  import opened Digraph
  import opened Topsort
  import opened Sequences

  /** Some walk of n edges ends at x. */
  ghost predicate HasChain<T(!new)>(E: Edges<T>, x: T, n: nat) {
    n == 0 || exists y :: (y, x) in E && HasChain(E, y, n - 1)
  }

  /** The longest chain of predecessors of x has n edges. */
  ghost predicate AtDepth<T(!new)>(E: Edges<T>, x: T, n: nat) {
    HasChain(E, x, n) && !HasChain(E, x, n + 1)
  }

  ghost function Shallow<T(!new)>(E: Edges<T>, nodes: set<T>, n: nat): set<T> {
    set x | x in nodes && !HasChain(E, x, n)
  }

  ghost function Flatten<T>(levels: seq<seq<T>>): seq<T> {
    if levels == [] then [] else Flatten(levels[..|levels| - 1]) + levels[|levels| - 1]
  }

  /** A level: nonempty, no repetition, exactly the elements at depth n. */
  ghost predicate IsLevel<T(!new)>(E: Edges<T>, nodes: set<T>, level: seq<T>, n: nat) {
    && level != []
    && Distinct(level)
    && (forall x :: x in level ==> x in nodes && AtDepth(E, x, n))
    && (forall x :: x in nodes && AtDepth(E, x, n) ==> x in level)
  }

  lemma {:induction false} ChainsShorten<T(!new)>(E: Edges<T>, x: T, n: nat)
    requires HasChain(E, x, n + 1)
    ensures HasChain(E, x, n)
  {
    if n > 0 {
      var y :| (y, x) in E && HasChain(E, y, n);
      ChainsShorten(E, y, n - 1);
    }
  }

  lemma {:induction false} ChainsAreWalks<T(!new)>(E: Edges<T>, x: T, n: nat)
    ensures HasChain(E, x, n) <==> exists p: seq<T> :: Walk(E, p) && |p| == n + 1 && p[n] == x
  {
    if n == 0 {
      assert Walk(E, [x]);
    } else {
      if HasChain(E, x, n) {
        var y :| (y, x) in E && HasChain(E, y, n - 1);
        ChainsAreWalks(E, y, n - 1);
        var p: seq<T> :| Walk(E, p) && |p| == n && p[n - 1] == y;
        WalksCompose(E, p, [x]);
        assert (p + [x])[n] == x;
      }
      if p: seq<T> :| Walk(E, p) && |p| == n + 1 && p[n] == x {
        SubwalkIsWalk(E, p, 0, n);
        assert (p[n - 1], p[n]) in E;
        ChainsAreWalks(E, p[n - 1], n - 1);
        assert p[0..n][n - 1] == p[n - 1];
      }
    }
  }

  /** The depth of x is the edge count of a longest walk ending at x. */
  lemma DepthIsLongestWalk<T(!new)>(E: Edges<T>, x: T, n: nat)
    ensures AtDepth(E, x, n) <==>
      && (exists p: seq<T> :: Walk(E, p) && |p| == n + 1 && p[n] == x)
      && (forall p: seq<T> :: Walk(E, p) && p[|p| - 1] == x ==> |p| <= n + 1)
  {
    ChainsAreWalks(E, x, n);
    ChainsAreWalks(E, x, n + 1);
    if p: seq<T> :| Walk(E, p) && p[|p| - 1] == x && |p| > n + 1 {
      SubwalkIsWalk(E, p, |p| - (n + 2), |p|);
      assert p[|p| - (n + 2)..|p|][n + 1] == x;
    }
  }

  /** No two elements of one level are joined by an edge. */
  lemma NoEdgeInsideLevel<T(!new)>(E: Edges<T>, nodes: set<T>, level: seq<T>, n: nat)
    requires IsLevel(E, nodes, level, n)
    ensures forall x, y :: x in level && y in level ==> (x, y) !in E
  {
    var longer: nat := n + 1;
    forall x, y | x in level && y in level ensures (x, y) !in E {
      assert (x, y) in E && HasChain(E, x, n) ==> HasChain(E, y, longer);
    }
  }

  /** A repetition-free listing of done, every parent ahead of its children. */
  ghost predicate OrderSoFar<T(!new)>(E: Edges<T>, order: seq<T>, done: set<T>) {
    && Distinct(order)
    && (forall x :: x in order ==> x in done)
    && (forall x :: x in done ==> x in order)
    && (forall b, y {:trigger (y, order[b]) in E} :: 0 <= b < |order| && (y, order[b]) in E ==> y in order[..b])
  }

  lemma OrderGrows<T(!new)>(E: Edges<T>, order: seq<T>, done: set<T>, level: seq<T>)
    requires OrderSoFar(E, order, done) && Distinct(level)
    requires forall x :: x in level ==> x !in done
    requires forall x, y {:trigger (y, x) in E} :: x in level && (y, x) in E ==> y in done
    ensures OrderSoFar(E, order + level, done + (set x | x in level))
  {
    var longer := order + level;
    forall i, j | 0 <= i < j < |longer| ensures longer[i] != longer[j] {
      if i < |order| { assert longer[i] in order; }
      if j >= |order| { assert longer[j] in level; }
    }
    forall b, y | 0 <= b < |longer| && (y, longer[b]) in E ensures y in longer[..b] {
      if b < |order| {
        assert (y, order[b]) in E;
        assert longer[..b] == order[..b];
      } else {
        assert longer[b] in level;
        assert y in order && order <= longer[..b];
      }
    }
  }

  /** The state of the outer loop once the given levels have been produced. */
  ghost predicate LevelState<T(!new)>(pairs: seq<(T, T)>, nodes: set<T>, levels: seq<seq<T>>, numParents: map<T, int>,
                                      children: map<T, seq<T>>)
  {
    var E := EdgesOf(pairs);
    var done := Shallow(E, nodes, |levels|);
    && ClosedUpward(E, done)
    && TablesAgree(pairs, nodes, done, numParents, children)
    && OrderSoFar(E, Flatten(levels), done)
    && LevelsExact(E, nodes, levels)
  }

  ghost predicate LevelsExact<T(!new)>(E: Edges<T>, nodes: set<T>, levels: seq<seq<T>>) {
    forall k :: 0 <= k < |levels| ==> IsLevel(E, nodes, levels[k], k)
  }

  lemma ParentLessDeep<T(!new)>(E: Edges<T>, y: T, x: T, n: nat)
    requires (y, x) in E && !HasChain(E, x, n + 1)
    ensures !HasChain(E, y, n)
  {
  }

  /** A remaining element has no counted parent exactly when its depth is the level
      being produced. */
  lemma ZeroMeansThisLevel<T(!new)>(pairs: seq<(T, T)>, nodes: set<T>, n: nat, x: T)
    requires Elements(EdgesOf(pairs)) <= nodes && x in nodes - Shallow(EdgesOf(pairs), nodes, n)
    ensures Pending(pairs, x, Shallow(EdgesOf(pairs), nodes, n)) == 0 <==> AtDepth(EdgesOf(pairs), x, n)
  {
    var E := EdgesOf(pairs);
    var done := Shallow(E, nodes, n);
    ElementsAreEnds(E);
    PendingZero(pairs, x, done);
    if HasChain(E, x, n + 1) {
      var y :| (y, x) in E && HasChain(E, y, n);
      assert (y, x) in pairs && (y, x).1 == x && (y, x).0 !in done;
    } else {
      forall e | e in pairs && e.1 == x ensures e.0 in done {
        assert e == (e.0, x) && (e.0, x) in E;
        ParentLessDeep(E, e.0, x, n);
      }
    }
  }

  lemma ShallowGrows<T(!new)>(E: Edges<T>, nodes: set<T>, n: nat, level: seq<T>)
    requires forall x :: x in level ==> x in nodes && AtDepth(E, x, n)
    requires forall x :: x in nodes && AtDepth(E, x, n) ==> x in level
    ensures Shallow(E, nodes, n + 1) == Shallow(E, nodes, n) + (set x | x in level)
  {
    forall x | x in nodes ensures x in Shallow(E, nodes, n + 1) <==> x in Shallow(E, nodes, n) || x in level {
      if HasChain(E, x, n + 1) {
        ChainsShorten(E, x, n);
      }
    }
  }

  lemma {:induction false} RetiringMoreKeepsZero<T>(pairs: seq<(T, T)>, x: T, done: set<T>, more: set<T>)
    requires Pending(pairs, x, done) == 0 && done <= more
    ensures Pending(pairs, x, more) == 0
  {
    PendingZero(pairs, x, done);
    PendingZero(pairs, x, more);
  }

  /** Decrement the count of every child of one retired parent. */
  method KnockDownOnly<T(==,!new)>(ghost pairs: seq<(T, T)>, ghost nodes: set<T>, ghost done: set<T>, ghost parent: T,
                                   kids: seq<T>, numParents0: map<T, int>)
    returns (numParents: map<T, int>)
    requires kids == ChildrenOf(pairs, parent)
    requires ClosedUpward(EdgesOf(pairs), done) && parent !in done && Pending(pairs, parent, done) == 0
    requires Elements(EdgesOf(pairs)) <= nodes && numParents0.Keys == nodes - done - {parent}
    requires forall x :: x in numParents0 ==>
      numParents0[x] == Pending(pairs, x, done + {parent}) + Count(kids, x)
    ensures numParents.Keys == numParents0.Keys
    ensures forall x :: x in numParents ==> numParents[x] == Pending(pairs, x, done + {parent})
  {
    numParents := numParents0;
    assert kids[0..] == kids;
    for k := 0 to |kids|
      invariant numParents.Keys == numParents0.Keys
      invariant forall x :: x in numParents ==>
        numParents[x] == Pending(pairs, x, done + {parent}) + Count(kids[k..], x)
    {
      KnockOne(pairs, nodes, done, parent, kids, k, numParents);
      numParents := numParents[kids[k] := numParents[kids[k]] - 1];
    }
  }

  /** Strike one parent of a level out of the two dictionaries. */
  method RetireLevelParent<T(==,!new)>(ghost pairs: seq<(T, T)>, ghost nodes: set<T>, ghost done: set<T>,
                                       levelParent: T,
                                       numParents0: map<T, int>, children0: map<T, seq<T>>)
    returns (numParents: map<T, int>, children: map<T, seq<T>>)
    requires ClosedUpward(EdgesOf(pairs), done) && TablesAgree(pairs, nodes, done, numParents0, children0)
    requires levelParent in numParents0 && Pending(pairs, levelParent, done) == 0
    ensures ClosedUpward(EdgesOf(pairs), done + {levelParent})
    ensures TablesAgree(pairs, nodes, done + {levelParent}, numParents, children)
  {
    AllRetireOne(pairs, done, levelParent, numParents0);
    RetireKeepsClosed(pairs, done, levelParent);
    numParents, children := numParents0 - {levelParent}, children0;
    if levelParent in children {
      numParents := KnockDownOnly(pairs, nodes, done, levelParent, children[levelParent], numParents);
      children := children - {levelParent};
    } else {
      UnlistedHasNone(pairs, levelParent);
    }
  }

  /** Strike a whole level out of the two dictionaries. */
  method RetireLevel<T(==,!new)>(ghost pairs: seq<(T, T)>, ghost nodes: set<T>, ghost done: set<T>, level: seq<T>,
                                 numParents0: map<T, int>, children0: map<T, seq<T>>)
    returns (numParents: map<T, int>, children: map<T, seq<T>>)
    requires ClosedUpward(EdgesOf(pairs), done) && Distinct(level)
    requires TablesAgree(pairs, nodes, done, numParents0, children0)
    requires forall x :: x in level ==> x in numParents0 && numParents0[x] == 0
    ensures ClosedUpward(EdgesOf(pairs), done + (set x | x in level))
    ensures TablesAgree(pairs, nodes, done + (set x | x in level), numParents, children)
  {
    numParents, children := numParents0, children0;
    ghost var out := done;
    for j := 0 to |level|
      invariant out == done + (set x | x in level[..j])
      invariant ClosedUpward(EdgesOf(pairs), out)
      invariant TablesAgree(pairs, nodes, out, numParents, children)
    {
      assert level[j] in level && level[j] !in level[..j];
      RetiringMoreKeepsZero(pairs, level[j], done, out);
      numParents, children := RetireLevelParent(pairs, nodes, out, level[j], numParents, children);
      out := out + {level[j]};
      assert level[..j + 1] == level[..j] + [level[j]];
    }
    assert level[..|level|] == level;
  }

  /** The generator, its levels collected up to the end or the exception. The pairs are
      any list that the two dictionaries count. */
  method TopsortLevelsCore<T(==,!new)>(ghost pairs: seq<(T, T)>, ghost nodes: set<T>, numParents0: map<T, int>,
                                       children0: map<T, seq<T>>)
    returns (r: Levels<T>)
    requires TablesAgree(pairs, nodes, {}, numParents0, children0)
    ensures r.AllLevels? <==> Acyclic(EdgesOf(pairs))
    ensures LevelsExact(EdgesOf(pairs), nodes, r.levels)
    ensures r.AllLevels? ==> TopologicalOrder(EdgesOf(pairs), nodes, Flatten(r.levels))
    ensures r.LevelsThenCycleError? ==> StuckReport(pairs, nodes, Flatten(r.levels), r.numParents, r.children)
  {
    var numParents, children := numParents0, children0;
    var levels: seq<seq<T>> := [];
    assert Shallow(EdgesOf(pairs), nodes, 0) == {};
    while true
      invariant LevelState(pairs, nodes, levels, numParents, children)
      decreases numParents.Keys
    {
      var levelParents := KeysWithoutParent(numParents);
      if levelParents == [] {
        break;
      }
      LevelFound(pairs, nodes, levels, numParents, children, levelParents);
      assert levelParents[0] in levelParents;
      numParents, children := RetireLevel(pairs, nodes, Shallow(EdgesOf(pairs), nodes, |levels|), levelParents, numParents, children);
      levels := levels + [levelParents];
    }
    FinishLevels(pairs, nodes, levels, numParents, children);
    if numParents != map[] {
      return LevelsThenCycleError(levels, numParents, children);
    }
    return AllLevels(levels);
  }

  /** The keys with count zero are the level of this depth. */
  lemma ZerosAreLevel<T(!new)>(pairs: seq<(T, T)>, nodes: set<T>, n: nat, numParents: map<T, int>,
                               children: map<T, seq<T>>, level: seq<T>)
    requires TablesAgree(pairs, nodes, Shallow(EdgesOf(pairs), nodes, n), numParents, children)
    requires level != [] && Distinct(level)
    requires forall x :: x in level ==> x in numParents && numParents[x] == 0
    requires forall x :: x in numParents && numParents[x] == 0 ==> x in level
    ensures IsLevel(EdgesOf(pairs), nodes, level, n)
  {
    forall x | x in numParents ensures x in level <==> AtDepth(EdgesOf(pairs), x, n) {
      ZeroMeansThisLevel(pairs, nodes, n, x);
    }
  }

  lemma LevelFound<T(!new)>(pairs: seq<(T, T)>, nodes: set<T>, levels: seq<seq<T>>, numParents: map<T, int>,
                            children: map<T, seq<T>>, level: seq<T>)
    requires LevelState(pairs, nodes, levels, numParents, children)
    requires level != [] && Distinct(level)
    requires forall x :: x in level ==> x in numParents && numParents[x] == 0
    requires forall x :: x in numParents && numParents[x] == 0 ==> x in level
    ensures var E := EdgesOf(pairs); var longer := levels + [level];
      && Shallow(E, nodes, |longer|) == Shallow(E, nodes, |levels|) + (set x | x in level)
      && OrderSoFar(E, Flatten(longer), Shallow(E, nodes, |longer|))
      && LevelsExact(E, nodes, longer)
  {
    var E, n := EdgesOf(pairs), |levels|;
    ZerosAreLevel(pairs, nodes, n, numParents, children, level);
    ShallowGrows(E, nodes, n, level);
    LevelOrders(pairs, Shallow(E, nodes, n), levels, level);
    OneMoreExact(E, nodes, levels, level);
  }

  lemma OneMoreExact<T(!new)>(E: Edges<T>, nodes: set<T>, levels: seq<seq<T>>, level: seq<T>)
    requires LevelsExact(E, nodes, levels) && IsLevel(E, nodes, level, |levels|)
    ensures LevelsExact(E, nodes, levels + [level])
  {
  }

  lemma LevelOrders<T(!new)>(pairs: seq<(T, T)>, done: set<T>, levels: seq<seq<T>>, level: seq<T>)
    requires OrderSoFar(EdgesOf(pairs), Flatten(levels), done) && Distinct(level)
    requires forall x :: x in level ==> x !in done && Pending(pairs, x, done) == 0
    ensures OrderSoFar(EdgesOf(pairs), Flatten(levels + [level]), done + (set x | x in level))
  {
    ParentsAllDone(pairs, done, level);
    OrderGrows(EdgesOf(pairs), Flatten(levels), done, level);
    assert (levels + [level])[..|levels|] == levels;
  }

  lemma ParentsAllDone<T(!new)>(pairs: seq<(T, T)>, done: set<T>, level: seq<T>)
    requires forall x :: x in level ==> Pending(pairs, x, done) == 0
    ensures forall x, y {:trigger (y, x) in EdgesOf(pairs)} :: x in level && (y, x) in EdgesOf(pairs) ==> y in done
  {
    forall x, y | x in level && (y, x) in EdgesOf(pairs) ensures y in done {
      ParentsDone(pairs, done, x, y);
    }
  }

  lemma FinishLevels<T(!new)>(pairs: seq<(T, T)>, nodes: set<T>, levels: seq<seq<T>>, numParents: map<T, int>,
                              children: map<T, seq<T>>)
    requires LevelState(pairs, nodes, levels, numParents, children)
    requires forall x :: x in numParents ==> numParents[x] != 0
    ensures numParents == map[] <==> Acyclic(EdgesOf(pairs))
    ensures numParents == map[] ==> TopologicalOrder(EdgesOf(pairs), nodes, Flatten(levels))
    ensures numParents != map[] ==> StuckReport(pairs, nodes, Flatten(levels), numParents, children)
  {
    var E := EdgesOf(pairs);
    var done := Shallow(E, nodes, |levels|);
    PrefixIsTopological(pairs, Flatten(levels), done);
    StuckExactlyBelowCycles(pairs, nodes, done, Flatten(levels));
    assert numParents == map[] <==> numParents.Keys == {};
    assert nodes - numParents.Keys == done;
    if numParents == map[] {
      assert done == nodes;
    }
  }

  method TopsortLevels<T(==,!new)>(pairlist: seq<(T, T)>) returns (r: Levels<T>)
    ensures r.AllLevels? <==> Acyclic(EdgesOf(pairlist))
    ensures LevelsExact(EdgesOf(pairlist), Elements(EdgesOf(pairlist)), r.levels)
    ensures r.AllLevels? ==> TopologicalOrder(EdgesOf(pairlist), Elements(EdgesOf(pairlist)), Flatten(r.levels))
    ensures r.LevelsThenCycleError? ==> StuckReport(pairlist, Elements(EdgesOf(pairlist)), Flatten(r.levels), r.numParents, r.children)
  {
    var numParents, children := CountParents(pairlist);
    r := TopsortLevelsCore(pairlist, Elements(EdgesOf(pairlist)), numParents, children);
  }
}
