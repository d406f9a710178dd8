/** The walk against an independent account: one entry for each edge path that repeats no type,
    in order, and no other entry. A trail is the list of edge indices taken from type to type;
    no trail is followed twice, but two trails can give equal entries. */
module SimplePaths {
  import opened PathWalk
  import opened Sequences

  ghost predicate Taken(g: Graph, tid: TypeId, t: seq<nat>)
    requires tid in g
  {
    t != [] && t[0] < |g[tid]|
  }

  ghost function Next(g: Graph, tid: TypeId, k: nat): (next: TypeId)
    requires tid in g && k < |g[tid]|
    ensures next in g
  {
    g[tid][k].target
  }

  /** Every index of the trail names an edge. */
  ghost predicate IsTrail(g: Graph, tid: TypeId, t: seq<nat>)
    requires tid in g
    decreases |t|
  {
    t == [] || (Taken(g, tid, t) && IsTrail(g, Next(g, tid, t[0]), t[1..]))
  }

  /** The types a trail passes, its start included. */
  ghost function TypesOn(g: Graph, tid: TypeId, t: seq<nat>): (types: seq<TypeId>)
    requires tid in g
    ensures types != []
    decreases |t|
  {
    if Taken(g, tid, t) then [tid] + TypesOn(g, Next(g, tid, t[0]), t[1..]) else [tid]
  }

  ghost function Steps(g: Graph, tid: TypeId, t: seq<nat>): seq<string>
    requires tid in g
    decreases |t|
  {
    if Taken(g, tid, t) then [g[tid][t[0]].step] + Steps(g, Next(g, tid, t[0]), t[1..]) else []
  }

  ghost function End(g: Graph, tid: TypeId, t: seq<nat>): TypeId
    requires tid in g
    decreases |t|
  {
    if Taken(g, tid, t) then End(g, Next(g, tid, t[0]), t[1..]) else tid
  }

  /** A trail that meets no type twice and none of the stack. */
  ghost predicate SimpleTrail(g: Graph, tid: TypeId, stack: seq<TypeId>, t: seq<nat>)
    requires tid in g
  {
    var types := TypesOn(g, tid, t);
    && IsTrail(g, tid, t)
    && (forall i, j :: 0 <= i < j < |types| ==> types[i] != types[j])
    && (forall i :: 0 <= i < |types| ==> types[i] !in stack)
  }

  /** The trails in the order the walk meets them. */
  ghost function Trails(g: Graph, tid: TypeId, stack: seq<TypeId>): seq<seq<nat>>
    requires tid in g
    decreases Remaining(g, stack), 1, 0
  {
    if tid in stack then [] else [[]] + TrailsOver(g, tid, stack, |g[tid]|)
  }

  ghost function TrailsOver(g: Graph, tid: TypeId, stack: seq<TypeId>, n: nat): seq<seq<nat>>
    requires tid in g && tid !in stack && n <= |g[tid]|
    decreases Remaining(g, stack), 0, n
  {
    if n == 0 then []
    else
      assert tid in Remaining(g, stack) && tid !in Remaining(g, stack + [tid]);
      TrailsOver(g, tid, stack, n - 1) + Prefixed(n - 1, Trails(g, Next(g, tid, n - 1), stack + [tid]))
  }

  ghost function Prefixed(k: nat, trails: seq<seq<nat>>): seq<seq<nat>> {
    seq(|trails|, i requires 0 <= i < |trails| => [k] + trails[i])
  }

  ghost function Render(g: Graph, tid: TypeId, path: seq<string>, trails: seq<seq<nat>>): seq<Entry>
    requires tid in g
  {
    seq(|trails|, i requires 0 <= i < |trails| => EntryOf(g, tid, path, trails[i]))
  }

  /** What is recorded for one trail: where it ends and its steps. */
  ghost function EntryOf(g: Graph, tid: TypeId, path: seq<string>, t: seq<nat>): Entry
    requires tid in g
  {
    Entry(End(g, tid, t), PathString(path + Steps(g, tid, t)))
  }

  /** Taking a type onto the stack leaves fewer types off it. */
  lemma StackGrows(g: Graph, tid: TypeId, stack: seq<TypeId>)
    requires tid in g && tid !in stack
    ensures Remaining(g, stack + [tid]) < Remaining(g, stack)
  {
    assert tid in Remaining(g, stack) && tid !in Remaining(g, stack + [tid]);
  }

  // ---- Which trails are listed

  lemma PrefixedMembers(k: nat, trails: seq<seq<nat>>, t: seq<nat>)
    ensures t in Prefixed(k, trails) <==> t != [] && t[0] == k && t[1..] in trails
  {
    if t != [] && t[0] == k && t[1..] in trails {
      var i :| 0 <= i < |trails| && trails[i] == t[1..];
      assert Prefixed(k, trails)[i] == [k] + t[1..] == t;
    }
    if t in Prefixed(k, trails) {
      var i :| 0 <= i < |trails| && Prefixed(k, trails)[i] == t;
      assert t[1..] == trails[i];
    }
  }

  lemma {:induction false} OverMembers(g: Graph, tid: TypeId, stack: seq<TypeId>, n: nat, t: seq<nat>)
    requires tid in g && tid !in stack && n <= |g[tid]|
    ensures t in TrailsOver(g, tid, stack, n) <==>
      t != [] && t[0] < n && t[1..] in Trails(g, Next(g, tid, t[0]), stack + [tid])
  {
    if n > 0 {
      var over, beyond := TrailsOver(g, tid, stack, n - 1), Trails(g, Next(g, tid, n - 1), stack + [tid]);
      assert TrailsOver(g, tid, stack, n) == over + Prefixed(n - 1, beyond);
      OverMembers(g, tid, stack, n - 1, t);
      PrefixedMembers(n - 1, beyond, t);
      assert t in over + Prefixed(n - 1, beyond) <==> t in over || t in Prefixed(n - 1, beyond);
    }
  }

  /** Exactly the simple trails are listed. */
  lemma {:induction false} ListedIffSimple(g: Graph, tid: TypeId, stack: seq<TypeId>, t: seq<nat>)
    requires tid in g
    ensures t in Trails(g, tid, stack) <==> SimpleTrail(g, tid, stack, t)
    decreases |t|
  {
    if tid in stack {
      assert TypesOn(g, tid, t)[0] == tid;
    } else {
      OverMembers(g, tid, stack, |g[tid]|, t);
      if Taken(g, tid, t) {
        ListedIffSimple(g, Next(g, tid, t[0]), stack + [tid], t[1..]);
        SimpleTail(g, tid, stack, t);
      }
    }
  }

  lemma SimpleTail(g: Graph, tid: TypeId, stack: seq<TypeId>, t: seq<nat>)
    requires tid in g && tid !in stack && Taken(g, tid, t)
    ensures SimpleTrail(g, tid, stack, t) <==> SimpleTrail(g, Next(g, tid, t[0]), stack + [tid], t[1..])
  {
    var types, rest := TypesOn(g, tid, t), TypesOn(g, Next(g, tid, t[0]), t[1..]);
    assert types == [tid] + rest;
    if SimpleTrail(g, tid, stack, t) {
      forall i | 0 <= i < |rest| ensures rest[i] !in stack + [tid] {
        assert rest[i] == types[i + 1] && types[0] == tid;
      }
      forall i, j | 0 <= i < j < |rest| ensures rest[i] != rest[j] {
        assert rest[i] == types[i + 1] && rest[j] == types[j + 1];
      }
    }
  }

  lemma {:induction false} OverDistinct(g: Graph, tid: TypeId, stack: seq<TypeId>, n: nat)
    requires tid in g && tid !in stack && n <= |g[tid]|
    ensures Distinct(TrailsOver(g, tid, stack, n))
    decreases Remaining(g, stack), 0, n
  {
    if n > 0 {
      StackGrows(g, tid, stack);
      var a, b := TrailsOver(g, tid, stack, n - 1), Trails(g, Next(g, tid, n - 1), stack + [tid]);
      assert TrailsOver(g, tid, stack, n) == a + Prefixed(n - 1, b);
      OverDistinct(g, tid, stack, n - 1);
      TrailsDistinct(g, Next(g, tid, n - 1), stack + [tid]);
      PrefixedDistinct(n - 1, b);
      EarlierEdgesApart(g, tid, stack, n - 1, b, a, Prefixed(n - 1, b));
      ConcatDistinct(a, Prefixed(n - 1, b));
    }
  }

  lemma EarlierEdgesApart(g: Graph, tid: TypeId, stack: seq<TypeId>, k: nat, beyond: seq<seq<nat>>,
                          a: seq<seq<nat>>, b: seq<seq<nat>>)
    requires tid in g && tid !in stack && k <= |g[tid]|
    requires a == TrailsOver(g, tid, stack, k) && b == Prefixed(k, beyond)
    ensures forall t :: t in a ==> t !in b
  {
    forall t | t in a ensures t !in b {
      OverMembers(g, tid, stack, k, t);
      PrefixedMembers(k, beyond, t);
    }
  }

  lemma ConcatDistinct<A>(a: seq<A>, b: seq<A>)
    requires Distinct(a) && Distinct(b) && forall x :: x in a ==> x !in b
    ensures Distinct(a + b)
  {
    forall i, j | 0 <= i < j < |a + b| ensures (a + b)[i] != (a + b)[j] {
      if i < |a| <= j { assert a[i] in a; }
    }
  }

  lemma PrefixedDistinct(k: nat, trails: seq<seq<nat>>)
    requires Distinct(trails)
    ensures Distinct(Prefixed(k, trails))
  {
    forall i, j | 0 <= i < j < |trails| ensures [k] + trails[i] != [k] + trails[j] {
      assert ([k] + trails[i])[1..] == trails[i];
      assert ([k] + trails[j])[1..] == trails[j];
    }
  }

  /** No trail is listed twice. */
  lemma {:induction false} TrailsDistinct(g: Graph, tid: TypeId, stack: seq<TypeId>)
    requires tid in g
    ensures Distinct(Trails(g, tid, stack))
    decreases Remaining(g, stack), 1, 0
  {
    if tid !in stack {
      var n := |g[tid]|;
      OverDistinct(g, tid, stack, n);
      var over := TrailsOver(g, tid, stack, n);
      forall i | 0 <= i < |over| ensures over[i] != [] {
        OverMembers(g, tid, stack, n, over[i]);
      }
    }
  }

  // ---- What is recorded for them

  lemma EntryBeyond(g: Graph, tid: TypeId, path: seq<string>, k: nat, t: seq<nat>)
    requires tid in g && k < |g[tid]|
    ensures EntryOf(g, tid, path, [k] + t) == EntryOf(g, Next(g, tid, k), path + [g[tid][k].step], t)
  {
    var next, step := Next(g, tid, k), g[tid][k].step;
    assert ([k] + t)[1..] == t;
    assert Steps(g, tid, [k] + t) == [step] + Steps(g, next, t);
    Regroup(path, [step], Steps(g, next, t));
  }

  lemma RenderPrefixed(g: Graph, tid: TypeId, path: seq<string>, k: nat, trails: seq<seq<nat>>)
    requires tid in g && k < |g[tid]|
    ensures Render(g, tid, path, Prefixed(k, trails)) == Render(g, Next(g, tid, k), path + [g[tid][k].step], trails)
  {
    forall i | 0 <= i < |trails|
      ensures EntryOf(g, tid, path, [k] + trails[i])
        == EntryOf(g, Next(g, tid, k), path + [g[tid][k].step], trails[i])
    {
      EntryBeyond(g, tid, path, k, trails[i]);
    }
  }

  lemma RenderConcat(g: Graph, tid: TypeId, path: seq<string>, a: seq<seq<nat>>, b: seq<seq<nat>>)
    requires tid in g
    ensures Render(g, tid, path, a + b) == Render(g, tid, path, a) + Render(g, tid, path, b)
  {
  }

  lemma PrefixOneMore<A>(s: seq<A>, n: nat)
    requires 0 < n <= |s|
    ensures s[..n] == s[..n - 1] + [s[n - 1]]
  {
  }

  lemma OneMoreEdge(g: Graph, tid: TypeId, stack: seq<TypeId>, path: seq<string>, n: nat)
    requires tid in g && tid !in stack && 0 < n <= |g[tid]|
    ensures Targets(g, g[tid][..n]) && Targets(g, g[tid][..n - 1])
    ensures VisitEdges(g, g[tid][..n], stack + [tid], path) ==
      VisitEdges(g, g[tid][..n - 1], stack + [tid], path)
      + Visit(g, Next(g, tid, n - 1), stack + [tid], path + [g[tid][n - 1].step])
  {
    PrefixOneMore(g[tid], n);
    VisitOneMore(g, g[tid][..n - 1], g[tid][n - 1], stack + [tid], path);
  }

  lemma RenderOneMore(g: Graph, tid: TypeId, stack: seq<TypeId>, path: seq<string>, n: nat)
    requires tid in g && tid !in stack && 0 < n <= |g[tid]|
    ensures Render(g, tid, path, TrailsOver(g, tid, stack, n)) ==
      Render(g, tid, path, TrailsOver(g, tid, stack, n - 1))
      + Render(g, Next(g, tid, n - 1), path + [g[tid][n - 1].step], Trails(g, Next(g, tid, n - 1), stack + [tid]))
  {
    var over, beyond := TrailsOver(g, tid, stack, n - 1), Trails(g, Next(g, tid, n - 1), stack + [tid]);
    assert TrailsOver(g, tid, stack, n) == over + Prefixed(n - 1, beyond);
    RenderPrefixed(g, tid, path, n - 1, beyond);
    RenderConcat(g, tid, path, over, Prefixed(n - 1, beyond));
  }

  lemma NoEdgesYet(g: Graph, tid: TypeId, stack: seq<TypeId>, path: seq<string>)
    requires tid in g && tid !in stack
    ensures VisitEdges(g, [], stack + [tid], path) == Render(g, tid, path, TrailsOver(g, tid, stack, 0))
  {
  }

  lemma OneMoreAgrees(g: Graph, tid: TypeId, stack: seq<TypeId>, path: seq<string>, n: nat)
    requires tid in g && tid !in stack && 0 < n <= |g[tid]|
    requires Targets(g, g[tid][..n - 1])
    requires VisitEdges(g, g[tid][..n - 1], stack + [tid], path) ==
      Render(g, tid, path, TrailsOver(g, tid, stack, n - 1))
    requires var next, longer := Next(g, tid, n - 1), path + [g[tid][n - 1].step];
      Visit(g, next, stack + [tid], longer) == Render(g, next, longer, Trails(g, next, stack + [tid]))
    ensures Targets(g, g[tid][..n])
    ensures VisitEdges(g, g[tid][..n], stack + [tid], path) == Render(g, tid, path, TrailsOver(g, tid, stack, n))
  {
    OneMoreEdge(g, tid, stack, path, n);
    RenderOneMore(g, tid, stack, path, n);
  }

  lemma {:induction false} VisitOverRenders(g: Graph, tid: TypeId, stack: seq<TypeId>, path: seq<string>,
                                            n: nat)
    requires tid in g && tid !in stack && n <= |g[tid]|
    ensures Targets(g, g[tid][..n])
    ensures VisitEdges(g, g[tid][..n], stack + [tid], path) == Render(g, tid, path, TrailsOver(g, tid, stack, n))
    decreases Remaining(g, stack), 0, n
  {
    if n == 0 {
      NoEdgesYet(g, tid, stack, path);
      assert g[tid][..0] == [];
    } else {
      StackGrows(g, tid, stack);
      VisitOverRenders(g, tid, stack, path, n - 1);
      VisitRenders(g, Next(g, tid, n - 1), stack + [tid], path + [g[tid][n - 1].step]);
      OneMoreAgrees(g, tid, stack, path, n);
    }
  }

  /** The walk records, for each listed trail in order, where it ends and its steps. */
  lemma {:induction false} VisitRenders(g: Graph, tid: TypeId, stack: seq<TypeId>, path: seq<string>)
    requires tid in g
    ensures Visit(g, tid, stack, path) == Render(g, tid, path, Trails(g, tid, stack))
    decreases Remaining(g, stack), 1, 0
  {
    if tid !in stack {
      var n := |g[tid]|;
      VisitOverRenders(g, tid, stack, path, n);
      assert g[tid][..n] == g[tid];
      RenderConcat(g, tid, path, [[]], TrailsOver(g, tid, stack, n));
      assert path + [] == path;
      assert Render(g, tid, path, [[]]) == [Entry(tid, PathString(path))];
    }
  }

  /** From empty stacks: one entry for each simple edge path from the root, in order, and
      nothing else. */
  lemma GatherListsSimplePaths(g: Graph, root: TypeId)
    requires root in g
    ensures Visit(g, root, [], []) == Render(g, root, [], Trails(g, root, []))
    ensures Distinct(Trails(g, root, []))
    ensures forall t :: t in Trails(g, root, []) <==> SimpleTrail(g, root, [], t)
  {
    VisitRenders(g, root, [], []);
    TrailsDistinct(g, root, []);
    forall t ensures t in Trails(g, root, []) <==> SimpleTrail(g, root, [], t) {
      ListedIffSimple(g, root, [], t);
    }
  }
  lemma LeafEntry(g: Graph, step: string)
    requires 1 in g && g[1] == []
    ensures Visit(g, 1, [0], [step]) == [Entry(1, "/" + step)]
  {
    assert [step][..0] == [] && PathString([step]) == "" + "/" + step == "/" + step;
    assert VisitEdges(g, [], [0] + [1], [step]) == [];
  }

  /** Two edges with one step, as an aggregation registered twice gives, are two trails with
      equal entries. */
  lemma EntriesCanRepeat(g: Graph, step: string)
    requires g == map[0 := [Edge(step, 1), Edge(step, 1)], 1 := []]
    ensures Visit(g, 0, [], []) == [Entry(0, ""), Entry(1, "/" + step), Entry(1, "/" + step)]
  {
    var e := Edge(step, 1);
    LeafEntry(g, step);
    VisitOneMore(g, [], e, [0], []);
    VisitOneMore(g, [e], e, [0], []);
    assert [] + [0] == [0] && [] + [step] == [step] && [] + [e] == [e] && [e] + [e] == [e, e];
  }
}
