/** Finite directed graphs given as sets of edges: walks, cycles and the facts the
    sorting and cycle-finding algorithms rest on. */
module Digraph {
  import opened Sequences

  type Edges<T(==)> = set<(T, T)>

  ghost predicate Walk<T>(E: Edges<T>, p: seq<T>) {
    && |p| > 0
    && forall i :: 0 < i < |p| ==> (p[i - 1], p[i]) in E
  }

  ghost predicate ClosedWalk<T>(E: Edges<T>, p: seq<T>) {
    Walk(E, p) && |p| > 1 && p[0] == p[|p| - 1]
  }

  ghost predicate Acyclic<T(!new)>(E: Edges<T>) {
    forall p: seq<T> :: !ClosedWalk(E, p)
  }

  /** Distinct nodes, each the parent of the next, the last the parent of the first. */
  ghost predicate ElementaryCycle<T>(E: Edges<T>, c: seq<T>) {
    Walk(E, c) && Distinct(c) && (c[|c| - 1], c[0]) in E
  }

  ghost predicate SimplePath<T>(E: Edges<T>, p: seq<T>) {
    Walk(E, p) && Distinct(p)
  }

  ghost function Elements<T>(E: Edges<T>): set<T> {
    (set e <- E :: e.0) + (set e <- E :: e.1)
  }

  /** There is a walk, possibly of length zero, from a to b. */
  ghost predicate Reaches<T(!new)>(E: Edges<T>, a: T, b: T) {
    exists p: seq<T> :: Walk(E, p) && p[0] == a && p[|p| - 1] == b
  }

  /** x lies on a cycle or downstream of one. */
  ghost predicate BelowCycle<T(!new)>(E: Edges<T>, x: T) {
    exists c: seq<T> :: ClosedWalk(E, c) && Reaches(E, c[0], x)
  }

  /** Every element exactly once, each parent before each of its children. */
  ghost predicate TopologicalOrder<T>(E: Edges<T>, nodes: set<T>, order: seq<T>) {
    && Distinct(order)
    && (forall x :: x in order ==> x in nodes)
    && (forall x :: x in nodes ==> x in order)
    && forall i, j :: 0 <= i < |order| && 0 <= j < |order| && (order[i], order[j]) in E ==> i < j
  }

  /** Every member of S has a parent in S. */
  ghost predicate ParentInside<T>(E: Edges<T>, S: set<T>) {
    forall x {:trigger HasParentIn(E, S, x)} :: x in S ==> HasParentIn(E, S, x)
  }

  ghost predicate HasParentIn<T>(E: Edges<T>, S: set<T>, x: T) {
    exists y :: y in S && (y, x) in E
  }

  lemma SubwalkIsWalk<T>(E: Edges<T>, p: seq<T>, i: nat, j: nat)
    requires Walk(E, p) && i < j <= |p|
    ensures Walk(E, p[i..j])
  {
    forall k | 0 < k < j - i ensures (p[i..j][k - 1], p[i..j][k]) in E {
      assert p[i..j][k - 1] == p[i + k - 1] && p[i..j][k] == p[i + k];
    }
  }

  lemma WalksCompose<T>(E: Edges<T>, p: seq<T>, q: seq<T>)
    requires Walk(E, p) && Walk(E, q) && (p[|p| - 1], q[0]) in E
    ensures Walk(E, p + q)
  {
    var r := p + q;
    forall k | 0 < k < |r| ensures (r[k - 1], r[k]) in E {
      if k < |p| {
        assert (p[k - 1], p[k]) in E;
      } else if k > |p| {
        assert (q[k - |p| - 1], q[k - |p|]) in E;
      }
    }
  }

  /** A finite set in which everybody has a parent inside contains, upstream of each of
      its members, a closed walk. */
  lemma ParentsForceCycle<T(!new)>(E: Edges<T>, S: set<T>, x: T)
    requires ParentInside(E, S) && x in S
    ensures BelowCycle(E, x)
  {
    assert Walk(E, [x]);
    ClimbToCycle(E, S, x, [x]);
  }

  lemma {:induction false} ClimbToCycle<T(!new)>(E: Edges<T>, S: set<T>, x: T, p: seq<T>)
    requires ParentInside(E, S)
    requires SimplePath(E, p) && p[|p| - 1] == x && forall y :: y in p ==> y in S
    ensures BelowCycle(E, x)
    decreases |S| - |p|
  {
    DistinctFits(p, S);
    assert p[0] in p;
    assert HasParentIn(E, S, p[0]);
    var y :| y in S && (y, p[0]) in E;
    var q := [y] + p;
    assert Walk(E, [y]);
    WalksCompose(E, [y], p);
    if k :| 0 <= k < |p| && p[k] == y {
      var c := q[0..k + 2];
      SubwalkIsWalk(E, q, 0, k + 2);
      assert c[0] == y && c[|c| - 1] == p[k];
      assert Walk(E, q) && q[0] == c[0] && q[|q| - 1] == x;
      assert Reaches(E, c[0], x);
      assert ClosedWalk(E, c);
    } else {
      DistinctFits(q, S);
      ClimbToCycle(E, S, x, q);
    }
  }

  lemma {:induction false} DistinctFits<T>(p: seq<T>, S: set<T>)
    requires Distinct(p) && forall y :: y in p ==> y in S
    ensures |p| <= |S|
  {
    if |p| > 0 {
      assert p[0] !in p[1..];
      forall y | y in p[1..] ensures y in S - {p[0]} {}
      DistinctFits(p[1..], S - {p[0]});
    }
  }

  /** Following edges through an order only goes forward. */
  lemma {:induction false} OrderedWalkAdvances<T>(E: Edges<T>, nodes: set<T>, order: seq<T>, p: seq<T>, i: nat, j: nat)
    requires TopologicalOrder(E, nodes, order)
    requires Walk(E, p) && forall y :: y in p ==> y in nodes
    requires i < |order| && j < |order| && order[i] == p[0] && order[j] == p[|p| - 1]
    ensures |p| > 1 ==> i < j
    decreases |p|
  {
    if |p| > 1 {
      assert p[1] in p;
      assert p[1] in order;
      var k :| 0 <= k < |order| && order[k] == p[1];
      assert (p[0], p[1]) in E;
      SubwalkIsWalk(E, p, 1, |p|);
      OrderedWalkAdvances(E, nodes, order, p[1..|p|], k, j);
    }
  }

  lemma WalkStaysInElements<T>(E: Edges<T>, p: seq<T>)
    requires Walk(E, p) && |p| > 1
    ensures forall y :: y in p ==> y in Elements(E)
  {
    forall k | 0 <= k < |p| ensures p[k] in Elements(E) {
      if k == 0 {
        assert (p[0], p[1]) in E;
        assert (p[0], p[1]).0 in Elements(E);
      } else {
        assert (p[k - 1], p[k]) in E;
        assert (p[k - 1], p[k]).1 in Elements(E);
      }
    }
  }

  lemma OrderMeansAcyclic<T(!new)>(E: Edges<T>, nodes: set<T>, order: seq<T>)
    requires Elements(E) <= nodes && TopologicalOrder(E, nodes, order)
    ensures Acyclic(E)
  {
    forall p: seq<T> ensures !ClosedWalk(E, p) {
      if ClosedWalk(E, p) {
        WalkStaysInElements(E, p);
        assert p[0] in p;
        var i :| 0 <= i < |order| && order[i] == p[0];
        OrderedWalkAdvances(E, nodes, order, p, i, i);
      }
    }
  }

  /** A set closed under parents that has a topological order of its own has nothing
      below a cycle. */
  lemma OrderedPartAvoidsCycles<T(!new)>(E: Edges<T>, nodes: set<T>, order: seq<T>, x: T)
    requires TopologicalOrder(E, nodes, order) && x in nodes
    requires forall a, b {:trigger (a, b) in E} :: (a, b) in E && b in nodes ==> a in nodes
    ensures !BelowCycle(E, x)
  {
    if c: seq<T> :| ClosedWalk(E, c) && Reaches(E, c[0], x) {
      var p: seq<T> :| Walk(E, p) && p[0] == c[0] && p[|p| - 1] == x;
      WalkStaysUpstream(E, nodes, p);
      assert p[0] in p;
      WalkStaysUpstream(E, nodes, c);
      assert c[0] in c;
      var i :| 0 <= i < |order| && order[i] == c[0];
      OrderedWalkAdvances(E, nodes, order, c, i, i);
    }
  }

  lemma {:induction false} WalkStaysUpstream<T(!new)>(E: Edges<T>, nodes: set<T>, p: seq<T>)
    requires Walk(E, p) && p[|p| - 1] in nodes
    requires forall a, b {:trigger (a, b) in E} :: (a, b) in E && b in nodes ==> a in nodes
    ensures forall y :: y in p ==> y in nodes
  {
    if |p| > 1 {
      assert (p[|p| - 2], p[|p| - 1]) in E;
      SubwalkIsWalk(E, p, 0, |p| - 1);
      WalkStaysUpstream(E, nodes, p[0..|p| - 1]);
      assert p == p[0..|p| - 1] + [p[|p| - 1]];
    }
  }

  /** Cutting out repetitions turns a closed walk into an elementary cycle. */
  lemma {:induction false} ClosedWalkHoldsElementaryCycle<T(!new)>(E: Edges<T>, p: seq<T>)
    requires ClosedWalk(E, p)
    ensures exists c: seq<T> :: ElementaryCycle(E, c)
    decreases |p|
  {
    var c := p[0..|p| - 1];
    SubwalkIsWalk(E, p, 0, |p| - 1);
    if Distinct(c) {
      assert (p[|p| - 2], p[|p| - 1]) in E;
      assert ElementaryCycle(E, c);
    } else {
      var i, j :| 0 <= i < j < |c| && c[i] == c[j];
      SubwalkIsWalk(E, p, i, j + 1);
      assert p[i..j + 1][0] == c[i] && p[i..j + 1][j - i] == c[j];
      ClosedWalkHoldsElementaryCycle(E, p[i..j + 1]);
    }
  }

  lemma AcyclicMeansNoElementaryCycle<T(!new)>(E: Edges<T>)
    ensures Acyclic(E) <==> forall c: seq<T> :: !ElementaryCycle(E, c)
  {
    if !Acyclic(E) {
      var p: seq<T> :| ClosedWalk(E, p);
      ClosedWalkHoldsElementaryCycle(E, p);
    }
    if c: seq<T> :| ElementaryCycle(E, c) {
      WalksCompose(E, c, [c[0]]);
      assert ClosedWalk(E, c + [c[0]]);
    }
  }
}
