/** Topological sorting of (parent, child) pairs, flat and by dependency level. */
module Topsort {
  import opened Digraph
  import opened Sequences

  /** What a sort hands back: the answer, or the state it was stuck in. */
  datatype Outcome<T> =
    | Sorted(order: seq<T>)
    | CycleError(answer: seq<T>, numParents: map<T, int>, children: map<T, seq<T>>)

  datatype Levels<T> =
    | AllLevels(levels: seq<seq<T>>)
    | LevelsThenCycleError(levels: seq<seq<T>>, numParents: map<T, int>, children: map<T, seq<T>>)

  ghost function EdgesOf<T>(pairs: seq<(T, T)>): Edges<T> {
    set e | e in pairs
  }

  /** How many pairs, duplicates counted, give x a parent outside done. */
  ghost function Pending<T>(pairs: seq<(T, T)>, x: T, done: set<T>): nat {
    if pairs == [] then 0
    else
      var (parent, child) := pairs[|pairs| - 1];
      Pending(pairs[..|pairs| - 1], x, done) + if child == x && parent !in done then 1 else 0
  }

  /** The children of p in pair order, duplicates kept. */
  ghost function ChildrenOf<T>(pairs: seq<(T, T)>, p: T): seq<T> {
    if pairs == [] then []
    else
      var (parent, child) := pairs[|pairs| - 1];
      ChildrenOf(pairs[..|pairs| - 1], p) + if parent == p then [child] else []
  }

  ghost function Count<T>(s: seq<T>, x: T): nat {
    if s == [] then 0 else Count(s[..|s| - 1], x) + if s[|s| - 1] == x then 1 else 0
  }

  lemma {:induction false} CountHead<T>(s: seq<T>, x: T)
    requires s != []
    ensures Count(s, x) == Count(s[1..], x) + if s[0] == x then 1 else 0
  {
    if |s| > 1 {
      CountHead(s[..|s| - 1], x);
      assert s[..|s| - 1][1..] == s[1..][..|s| - 2];
    }
  }

  lemma {:induction false} PendingZero<T>(pairs: seq<(T, T)>, x: T, done: set<T>)
    ensures Pending(pairs, x, done) == 0 <==> forall e :: e in pairs && e.1 == x ==> e.0 in done
  {
    if pairs != [] {
      var init, last := pairs[..|pairs| - 1], pairs[|pairs| - 1];
      PendingZero(init, x, done);
      assert pairs == init + [last];
    }
  }

  lemma {:induction false} ChildrenOfAreEdges<T>(pairs: seq<(T, T)>, p: T)
    ensures forall c :: c in ChildrenOf(pairs, p) ==> (p, c) in pairs
  {
    if pairs != [] {
      var init, last := pairs[..|pairs| - 1], pairs[|pairs| - 1];
      ChildrenOfAreEdges(init, p);
      assert last == (last.0, last.1) && last in pairs;
      forall c | c in ChildrenOf(pairs, p) ensures (p, c) in pairs {
        assert c in ChildrenOf(init, p) || last == (p, c);
      }
    }
  }

  lemma CountOneMore<T>(s: seq<T>, c: T, x: T)
    ensures Count(s + [c], x) == Count(s, x) + if c == x then 1 else 0
  {
    assert (s + [c])[..|s|] == s;
  }

  /** Retiring p takes off exactly one unit per occurrence of x among p's children. */
  lemma {:induction false} RetireOne<T>(pairs: seq<(T, T)>, x: T, done: set<T>, p: T)
    requires p !in done
    ensures Pending(pairs, x, done) == Pending(pairs, x, done + {p}) + Count(ChildrenOf(pairs, p), x)
  {
    if pairs != [] {
      var init, last := pairs[..|pairs| - 1], pairs[|pairs| - 1];
      RetireOne(init, x, done, p);
      if last.0 == p {
        CountOneMore(ChildrenOf(init, p), last.1, x);
        assert ChildrenOf(pairs, p) == ChildrenOf(init, p) + [last.1];
      } else {
        assert ChildrenOf(pairs, p) == ChildrenOf(init, p);
      }
    }
  }

  ghost predicate ClosedUpward<T(!new)>(E: Edges<T>, done: set<T>) {
    forall a, b {:trigger (a, b) in E} :: (a, b) in E && b in done ==> a in done
  }

  /** The two dictionaries describe the nodes and pairs with the elements of done struck out. */
  ghost predicate TablesAgree<T>(pairs: seq<(T, T)>, nodes: set<T>, done: set<T>, numParents: map<T, int>,
                                 children: map<T, seq<T>>)
  {
    && Elements(EdgesOf(pairs)) <= nodes && numParents.Keys == nodes - done
    && (forall x :: x in numParents ==> numParents[x] == Pending(pairs, x, done))
    && ChildrenAgree(pairs, done, children)
  }

  ghost predicate ChildrenAgree<T>(pairs: seq<(T, T)>, done: set<T>, children: map<T, seq<T>>) {
    && children.Keys !! done
    && (forall p :: p in children ==> children[p] == ChildrenOf(pairs, p))
    && (forall e :: e in pairs ==> e.0 in children || e.0 in done)
  }

  /** The initial pass, the same text in both sorts. */
  method CountParents<T(==)>(pairlist: seq<(T, T)>) returns (numParents: map<T, int>, children: map<T, seq<T>>)
    ensures TablesAgree(pairlist, Elements(EdgesOf(pairlist)), {}, numParents, children)
  {
    numParents, children := map[], map[];
    for i := 0 to |pairlist|
      invariant TablesAgree(pairlist[..i], Elements(EdgesOf(pairlist[..i])), {}, numParents, children)
    {
      var (parent, child) := pairlist[i];
      numParents, children := CountPair(pairlist[..i], parent, child, numParents, children);
      assert pairlist[..i + 1] == pairlist[..i] + [(parent, child)];
    }
    assert pairlist[..|pairlist|] == pairlist;
  }

  /** One turn of the initial pass. */
  method CountPair<T(==)>(ghost seen: seq<(T, T)>, parent: T, child: T, num0: map<T, int>, children0: map<T, seq<T>>)
    returns (numParents: map<T, int>, children: map<T, seq<T>>)
    requires TablesAgree(seen, Elements(EdgesOf(seen)), {}, num0, children0)
    ensures var pairs := seen + [(parent, child)]; TablesAgree(pairs, Elements(EdgesOf(pairs)), {}, numParents, children)
  {
    numParents, children := num0, children0;
    if parent !in numParents {
      numParents := numParents[parent := 0];
    }
    if child !in numParents {
      numParents := numParents[child := 0];
    }
    numParents := numParents[child := numParents[child] + 1];
    children := children[parent := (if parent in children then children[parent] else []) + [child]];
    CountsOnePair(seen, parent, child, num0, children0, numParents, children);
  }

  lemma CountsOnePair<T>(seen: seq<(T, T)>, parent: T, child: T, num0: map<T, int>, children0: map<T, seq<T>>,
                         num1: map<T, int>, children1: map<T, seq<T>>)
    requires TablesAgree(seen, Elements(EdgesOf(seen)), {}, num0, children0)
    requires num1.Keys == num0.Keys + {parent, child}
    requires forall x :: x in num1 ==>
      num1[x] == (if x in num0 then num0[x] else 0) + (if x == child then 1 else 0)
    requires children1.Keys == children0.Keys + {parent}
    requires forall p :: p in children1 ==>
      children1[p] == (if p in children0 then children0[p] else []) + (if p == parent then [child] else [])
    ensures var pairs := seen + [(parent, child)]; TablesAgree(pairs, Elements(EdgesOf(pairs)), {}, num1, children1)
  {
    var pairs := seen + [(parent, child)];
    assert EdgesOf(pairs) == EdgesOf(seen) + {(parent, child)};
    ElementsOfUnion(EdgesOf(seen), parent, child);
    forall x | x in num1 ensures num1[x] == Pending(pairs, x, {}) {
      if x !in num0 { UnseenHasNone(seen, x); }
      PendingOneMore(seen, parent, child, x);
    }
    forall p | p in children1 ensures children1[p] == ChildrenOf(pairs, p) {
      if p !in children0 { UnlistedHasNone(seen, p); }
      ChildrenOneMore(seen, parent, child, p);
    }
  }

  lemma PendingOneMore<T>(seen: seq<(T, T)>, parent: T, child: T, x: T)
    ensures Pending(seen + [(parent, child)], x, {}) == Pending(seen, x, {}) + if x == child then 1 else 0
  {
    assert (seen + [(parent, child)])[..|seen|] == seen;
  }

  lemma ChildrenOneMore<T>(seen: seq<(T, T)>, parent: T, child: T, p: T)
    ensures ChildrenOf(seen + [(parent, child)], p) == ChildrenOf(seen, p) + if p == parent then [child] else []
  {
    assert (seen + [(parent, child)])[..|seen|] == seen;
  }

  lemma ElementsOfUnion<T>(E: Edges<T>, parent: T, child: T)
    ensures Elements(E + {(parent, child)}) == Elements(E) + {parent, child}
  {
    var F := E + {(parent, child)};
    assert (parent, child) in F;
    assert parent in (set e <- F :: e.0) && child in (set e <- F :: e.1);
    forall x | x in Elements(E) ensures x in Elements(F) {
      if x in (set e <- E :: e.0) {
        var e :| e in E && e.0 == x;
        assert e in F;
      } else {
        var e :| e in E && e.1 == x;
        assert e in F;
      }
    }
  }

  lemma UnseenHasNone<T>(pairs: seq<(T, T)>, x: T)
    requires x !in Elements(EdgesOf(pairs))
    ensures Pending(pairs, x, {}) == 0
  {
    forall e | e in pairs ensures e.1 != x {
      assert e in EdgesOf(pairs) && e.1 in Elements(EdgesOf(pairs));
    }
    PendingZero(pairs, x, {});
  }

  lemma {:induction false} UnlistedHasNone<T>(pairs: seq<(T, T)>, x: T)
    requires forall e :: e in pairs ==> e.0 != x
    ensures ChildrenOf(pairs, x) == []
  {
    if pairs != [] {
      assert pairs[|pairs| - 1] in pairs;
      UnlistedHasNone(pairs[..|pairs| - 1], x);
    }
  }

  /** Every key whose count is zero, in whatever order the dictionary lists them. */
  method KeysWithoutParent<T(==)>(numParents: map<T, int>) returns (xs: seq<T>)
    ensures Distinct(xs)
    ensures forall x :: x in xs ==> x in numParents && numParents[x] == 0
    ensures forall x :: x in numParents && numParents[x] == 0 ==> x in xs
  {
    xs := [];
    var rest := numParents.Keys;
    while rest != {}
      invariant rest <= numParents.Keys && Distinct(xs)
      invariant forall x :: x in xs ==> x in numParents && x !in rest && numParents[x] == 0
      invariant forall x :: x in numParents && x !in rest && numParents[x] == 0 ==> x in xs
      decreases rest
    {
      var x :| x in rest;
      rest := rest - {x};
      if numParents[x] == 0 {
        xs := xs + [x];
      }
    }
  }

  /** The parents of the node about to be struck out are done, so none of its children
      is the node itself or done already. */
  lemma ChildStillCounted<T(!new)>(pairs: seq<(T, T)>, done: set<T>, p: T, c: T)
    requires ClosedUpward(EdgesOf(pairs), done)
    requires p !in done && Pending(pairs, p, done) == 0
    requires c in ChildrenOf(pairs, p)
    ensures c in Elements(EdgesOf(pairs)) - done - {p}
  {
    ChildrenOfAreEdges(pairs, p);
    PendingZero(pairs, p, done);
    assert (p, c) in EdgesOf(pairs);
    assert (p, c).1 in Elements(EdgesOf(pairs));
  }

  lemma AllRetireOne<T>(pairs: seq<(T, T)>, done: set<T>, p: T, numParents: map<T, int>)
    requires p !in done && forall x :: x in numParents ==> numParents[x] == Pending(pairs, x, done)
    ensures forall x :: x in numParents ==>
      numParents[x] == Pending(pairs, x, done + {p}) + Count(ChildrenOf(pairs, p), x)
  {
    forall x | x in numParents
      ensures numParents[x] == Pending(pairs, x, done + {p}) + Count(ChildrenOf(pairs, p), x)
    {
      RetireOne(pairs, x, done, p);
    }
  }

  lemma ParentsDone<T(!new)>(pairs: seq<(T, T)>, done: set<T>, x: T, y: T)
    requires Pending(pairs, x, done) == 0 && (y, x) in EdgesOf(pairs)
    ensures y in done
  {
    PendingZero(pairs, x, done);
    assert (y, x) in pairs && (y, x).1 == x;
  }

  lemma ElementsAreEnds<T>(E: Edges<T>)
    ensures forall a, b :: (a, b) in E ==> a in Elements(E) && b in Elements(E)
  {
    forall a, b | (a, b) in E ensures a in Elements(E) && b in Elements(E) {
      assert (a, b).0 in Elements(E) && (a, b).1 in Elements(E);
    }
  }

  /** What is left when every count is positive is exactly what some cycle leads to. */
  lemma StuckExactlyBelowCycles<T(!new)>(pairs: seq<(T, T)>, nodes: set<T>, done: set<T>, order: seq<T>)
    requires var E := EdgesOf(pairs);
      && ClosedUpward(E, done) && Elements(E) <= nodes && done <= nodes && TopologicalOrder(E, done, order)
    requires forall x :: x in nodes - done ==> Pending(pairs, x, done) > 0
    ensures var E := EdgesOf(pairs); var left := nodes - done;
      && ParentInside(E, left)
      && left == (set x | x in nodes && BelowCycle(E, x))
      && (left == {} <==> Acyclic(E))
  {
    var E := EdgesOf(pairs);
    var left := nodes - done;
    StuckHaveParents(pairs, nodes, done);
    forall x | x in nodes ensures x in left <==> BelowCycle(E, x) {
      if x in left {
        ParentsForceCycle(E, left, x);
      } else {
        OrderedPartAvoidsCycles(E, done, order, x);
      }
    }
    if left == {} {
      assert done == nodes by {
        forall x | x in nodes ensures x in done { assert x !in left; }
      }
      OrderMeansAcyclic(E, nodes, order);
    } else {
      var x :| x in left;
      ParentsForceCycle(E, left, x);
      var c: seq<T> :| ClosedWalk(E, c) && Reaches(E, c[0], x);
    }
  }

  lemma StuckHaveParents<T(!new)>(pairs: seq<(T, T)>, nodes: set<T>, done: set<T>)
    requires Elements(EdgesOf(pairs)) <= nodes
    requires forall x :: x in nodes - done ==> Pending(pairs, x, done) > 0
    ensures ParentInside(EdgesOf(pairs), nodes - done)
  {
    var E := EdgesOf(pairs);
    var left := nodes - done;
    ElementsAreEnds(E);
    forall x | x in left ensures HasParentIn(E, left, x) {
      PendingZero(pairs, x, done);
      var e :| e in pairs && e.1 == x && e.0 !in done;
      assert e == (e.0, x) && e in E;
    }
  }

  /** Membership of the growing answer, and each element's parents ahead of it. */
  ghost predicate AnswerInvariant<T(!new)>(pairs: seq<(T, T)>, answer: seq<T>, done: set<T>, numParents: map<T, int>) {
    var E := EdgesOf(pairs);
    && Distinct(answer)
    && (forall x :: x in answer ==> x in done || (x in numParents && numParents[x] == 0))
    && (forall x :: x in done ==> x in answer)
    && (forall x :: x in numParents && numParents[x] == 0 ==> x in answer)
    && (forall b, y {:trigger (y, answer[b]) in E} :: 0 <= b < |answer| && (y, answer[b]) in E ==> y in answer[..b])
  }

  lemma PrefixIsTopological<T(!new)>(pairs: seq<(T, T)>, answer: seq<T>, done: set<T>)
    requires var E := EdgesOf(pairs);
      && Distinct(answer)
      && (forall x :: x in answer ==> x in done) && (forall x :: x in done ==> x in answer)
      && (forall b, y {:trigger (y, answer[b]) in E} :: 0 <= b < |answer| && (y, answer[b]) in E ==> y in answer[..b])
    ensures TopologicalOrder(EdgesOf(pairs), done, answer)
  {
    forall a, b | 0 <= a < |answer| && 0 <= b < |answer| && (answer[a], answer[b]) in EdgesOf(pairs)
      ensures a < b
    {
      assert answer[a] in answer[..b];
    }
  }

  /** The inner loop after k children have been knocked down. */
  ghost predicate KnockState<T(!new)>(pairs: seq<(T, T)>, nodes: set<T>, done: set<T>, parent: T, k: int,
                                      numParents: map<T, int>, answer: seq<T>)
  {
    && 0 <= k <= |ChildrenOf(pairs, parent)|
    && Elements(EdgesOf(pairs)) <= nodes && numParents.Keys == nodes - done - {parent}
    && (forall x :: x in numParents ==>
        numParents[x] == Pending(pairs, x, done + {parent}) + Count(ChildrenOf(pairs, parent)[k..], x))
    && AnswerInvariant(pairs, answer, done + {parent}, numParents)
  }

  /** The inner loop: knock one off the count of every child of the parent being retired,
      and append each child whose count drops to zero. */
  method KnockDown<T(==,!new)>(ghost pairs: seq<(T, T)>, ghost nodes: set<T>, ghost done: set<T>, ghost parent: T,
                               kids: seq<T>, numParents0: map<T, int>, answer0: seq<T>)
    returns (numParents: map<T, int>, answer: seq<T>)
    requires kids == ChildrenOf(pairs, parent)
    requires ClosedUpward(EdgesOf(pairs), done) && parent !in done && Pending(pairs, parent, done) == 0
    requires KnockState(pairs, nodes, done, parent, 0, numParents0, answer0)
    ensures KnockState(pairs, nodes, done, parent, |kids|, numParents, answer)
    ensures answer0 <= answer
  {
    numParents, answer := numParents0, answer0;
    for k := 0 to |kids|
      invariant KnockState(pairs, nodes, done, parent, k, numParents, answer)
      invariant answer0 <= answer
    {
      KnockStep(pairs, nodes, done, parent, kids, k, numParents, answer);
      var child := kids[k];
      numParents := numParents[child := numParents[child] - 1];
      if numParents[child] == 0 {
        answer := answer + [child];
      }
    }
  }

  lemma KnockStep<T(!new)>(pairs: seq<(T, T)>, nodes: set<T>, done: set<T>, parent: T, kids: seq<T>, k: nat,
                           numParents: map<T, int>, answer: seq<T>)
    requires kids == ChildrenOf(pairs, parent) && k < |kids|
    requires ClosedUpward(EdgesOf(pairs), done) && parent !in done && Pending(pairs, parent, done) == 0
    requires KnockState(pairs, nodes, done, parent, k, numParents, answer)
    ensures kids[k] in numParents
    ensures
      var count := numParents[kids[k]] - 1;
      KnockState(pairs, nodes, done, parent, k + 1, numParents[kids[k] := count], if count == 0 then answer + [kids[k]] else answer)
  {
    KnockOne(pairs, nodes, done, parent, kids, k, numParents);
    if numParents[kids[k]] == 1 {
      AppendKeepsInvariant(pairs, answer, done + {parent}, numParents, kids[k]);
    }
  }

  lemma KnockOne<T(!new)>(pairs: seq<(T, T)>, nodes: set<T>, done: set<T>, parent: T, kids: seq<T>, k: nat,
                          numParents: map<T, int>)
    requires kids == ChildrenOf(pairs, parent) && k < |kids|
    requires ClosedUpward(EdgesOf(pairs), done) && parent !in done && Pending(pairs, parent, done) == 0
    requires Elements(EdgesOf(pairs)) <= nodes && numParents.Keys == nodes - done - {parent}
    requires forall x :: x in numParents ==>
      numParents[x] == Pending(pairs, x, done + {parent}) + Count(kids[k..], x)
    ensures kids[k] in numParents && kids[k] !in done + {parent} && numParents[kids[k]] > 0
    ensures forall x :: x in numParents ==>
      numParents[x] - (if x == kids[k] then 1 else 0) == Pending(pairs, x, done + {parent}) + Count(kids[k + 1..], x)
  {
    ChildStillCounted(pairs, done, parent, kids[k]);
    forall x ensures Count(kids[k..], x) == Count(kids[k + 1..], x) + if x == kids[k] then 1 else 0 {
      CountHead(kids[k..], x);
      assert kids[k..][1..] == kids[k + 1..];
    }
  }

  lemma AppendKeepsInvariant<T(!new)>(pairs: seq<(T, T)>, answer: seq<T>, done: set<T>, numParents: map<T, int>,
                                      child: T)
    requires child in numParents && child !in done && numParents[child] == 1 && Pending(pairs, child, done) == 0
    requires AnswerInvariant(pairs, answer, done, numParents)
    ensures AnswerInvariant(pairs, answer + [child], done, numParents[child := 0])
  {
    var E := EdgesOf(pairs);
    var longer := answer + [child];
    assert child !in answer;
    forall b, y | 0 <= b < |longer| && (y, longer[b]) in E ensures y in longer[..b] {
      if b == |answer| {
        ParentsDone(pairs, done, child, y);
        assert longer[..b] == answer;
      } else {
        assert (y, answer[b]) in E && longer[..b] == answer[..b];
      }
    }
  }

  lemma StartKeepsInvariant<T(!new)>(pairs: seq<(T, T)>, answer: seq<T>, numParents: map<T, int>)
    requires Distinct(answer)
    requires forall x :: x in answer ==> x in numParents && numParents[x] == 0
    requires forall x :: x in numParents && numParents[x] == 0 ==> x in answer
    requires forall x :: x in numParents ==> numParents[x] == Pending(pairs, x, {})
    ensures AnswerInvariant(pairs, answer, {}, numParents)
  {
    forall b, y | 0 <= b < |answer| ensures (y, answer[b]) !in EdgesOf(pairs) {
      assert answer[b] in answer;
      PendingZero(pairs, answer[b], {});
      assert (y, answer[b]).1 == answer[b];
    }
  }

  /** The element at the loop's index has no parent left, and everything needed to
      strike it out follows. */
  lemma NextToRetire<T(!new)>(pairs: seq<(T, T)>, nodes: set<T>, answer: seq<T>, i: nat, done: set<T>,
                              numParents: map<T, int>)
    requires i < |answer| && AnswerInvariant(pairs, answer, done, numParents)
    requires done == Retired(answer, i)
    requires ClosedUpward(EdgesOf(pairs), done)
    requires numParents.Keys == nodes - done
    requires forall x :: x in numParents ==> numParents[x] == Pending(pairs, x, done)
    ensures var parent := answer[i];
      && parent in numParents && parent !in done && Pending(pairs, parent, done) == 0
      && ClosedUpward(EdgesOf(pairs), done + {parent})
      && (forall x :: x in numParents ==>
          numParents[x] == Pending(pairs, x, done + {parent}) + Count(ChildrenOf(pairs, parent), x))
      && AnswerInvariant(pairs, answer, done + {parent}, numParents - {parent})
  {
    var parent := answer[i];
    assert parent in answer && parent !in answer[..i];
    AllRetireOne(pairs, done, parent, numParents);
    RetireKeepsClosed(pairs, done, parent);
  }

  lemma RetireKeepsClosed<T(!new)>(pairs: seq<(T, T)>, done: set<T>, p: T)
    requires ClosedUpward(EdgesOf(pairs), done) && Pending(pairs, p, done) == 0
    ensures ClosedUpward(EdgesOf(pairs), done + {p})
  {
    forall a, b | (a, b) in EdgesOf(pairs) && b in done + {p} ensures a in done + {p} {
      if b == p { ParentsDone(pairs, done, p, a); }
    }
  }

  /** The state of the outer loop when the first i elements of the answer are retired. */
  ghost predicate SortState<T(!new)>(pairs: seq<(T, T)>, nodes: set<T>, answer: seq<T>, i: int, numParents: map<T, int>,
                                     children: map<T, seq<T>>)
  {
    && 0 <= i <= |answer|
    && var done := Retired(answer, i);
    && done <= nodes
    && ClosedUpward(EdgesOf(pairs), done)
    && TablesAgree(pairs, nodes, done, numParents, children)
    && AnswerInvariant(pairs, answer, done, numParents)
  }

  ghost function Retired<T>(answer: seq<T>, i: int): set<T>
    requires 0 <= i <= |answer|
  {
    set x | x in answer[..i]
  }

  /** One round of the outer loop. */
  method RetireNext<T(==,!new)>(ghost pairs: seq<(T, T)>, ghost nodes: set<T>, answer0: seq<T>, i: nat,
                                numParents0: map<T, int>, children0: map<T, seq<T>>)
    returns (answer: seq<T>, numParents: map<T, int>, children: map<T, seq<T>>)
    requires i < |answer0| && SortState(pairs, nodes, answer0, i, numParents0, children0)
    ensures SortState(pairs, nodes, answer, i + 1, numParents, children) && answer0 <= answer
    ensures answer0[i] in numParents0 && numParents.Keys == numParents0.Keys - {answer0[i]}
  {
    var parent := answer0[i];
    ghost var done := Retired(answer0, i);
    NextToRetire(pairs, nodes, answer0, i, done, numParents0);
    answer, numParents, children := answer0, numParents0 - {parent}, children0;
    if parent in children {
      assert ChildrenOf(pairs, parent)[0..] == ChildrenOf(pairs, parent);
      numParents, answer := KnockDown(pairs, nodes, done, parent, children[parent], numParents, answer);
      children := children - {parent};
    } else {
      UnlistedHasNone(pairs, parent);
    }
    RetiredOne(pairs, nodes, answer0, i, answer, numParents, children);
  }

  lemma RetiredOne<T(!new)>(pairs: seq<(T, T)>, nodes: set<T>, answer0: seq<T>, i: nat, answer: seq<T>,
                            numParents: map<T, int>, children: map<T, seq<T>>)
    requires i < |answer0| && answer0 <= answer && answer0[i] in nodes
    requires var done := Retired(answer0, i) + {answer0[i]};
      && Retired(answer0, i) <= nodes
      && ClosedUpward(EdgesOf(pairs), done)
      && TablesAgree(pairs, nodes, done, numParents, children)
      && AnswerInvariant(pairs, answer, done, numParents)
    ensures SortState(pairs, nodes, answer, i + 1, numParents, children)
  {
    assert answer[..i + 1] == answer0[..i] + [answer0[i]];
    assert Retired(answer, i + 1) == Retired(answer0, i) + {answer0[i]};
  }

  /** The details carried by the exception: the leftover keys are exactly the elements
      some cycle leads to, each with a leftover parent and the count of its pairs not
      accounted for; the partial answer orders exactly the rest. */
  ghost predicate StuckReport<T(!new)>(pairs: seq<(T, T)>, nodes: set<T>, answer: seq<T>, numParents: map<T, int>,
                                       children: map<T, seq<T>>)
  {
    var E := EdgesOf(pairs);
    var left := numParents.Keys;
    && left == (set x | x in nodes && BelowCycle(E, x))
    && left != {}
    && ParentInside(E, left)
    && (forall x :: x in left ==> numParents[x] > 0)
    && TablesAgree(pairs, nodes, nodes - left, numParents, children)
    && TopologicalOrder(E, nodes - left, answer)
  }

  lemma FinishSort<T(!new)>(pairs: seq<(T, T)>, nodes: set<T>, answer: seq<T>, numParents: map<T, int>,
                            children: map<T, seq<T>>)
    requires SortState(pairs, nodes, answer, |answer|, numParents, children)
    ensures numParents == map[] <==> Acyclic(EdgesOf(pairs))
    ensures numParents == map[] ==> TopologicalOrder(EdgesOf(pairs), nodes, answer)
    ensures numParents != map[] ==> StuckReport(pairs, nodes, answer, numParents, children)
  {
    var E := EdgesOf(pairs);
    var done := Retired(answer, |answer|);
    assert answer[..|answer|] == answer;
    PrefixIsTopological(pairs, answer, done);
    StuckExactlyBelowCycles(pairs, nodes, done, answer);
    assert numParents == map[] <==> numParents.Keys == {};
    assert nodes - numParents.Keys == done;
    if numParents == map[] {
      assert done == nodes;
    }
  }

  /** Every leftover element has a child exactly when no childless element lies below a cycle. */
  lemma LeftoversHaveChildrenIff<T(!new)>(pairs: seq<(T, T)>, nodes: set<T>, answer: seq<T>, numParents: map<T, int>,
                                          children: map<T, seq<T>>)
    requires StuckReport(pairs, nodes, answer, numParents, children)
    ensures (forall x :: x in numParents ==> ChildrenOf(pairs, x) != []) <==>
      (forall x :: x in nodes && ChildrenOf(pairs, x) == [] ==> !BelowCycle(EdgesOf(pairs), x))
  {
    forall x ensures x in numParents <==> x in nodes && BelowCycle(EdgesOf(pairs), x) {
      assert x in numParents <==> x in numParents.Keys;
    }
  }

  /** An element that a cycle leads to is left over without a child: 2, after the loop at 1. */
  lemma TailHasNoChild()
    ensures var pairs := [(1, 1), (1, 2)];
      BelowCycle(EdgesOf(pairs), 2) && ChildrenOf(pairs, 2) == []
  {
    var pairs := [(1, 1), (1, 2)];
    var E := EdgesOf(pairs);
    assert (1, 1) in E && (1, 2) in E;
    assert ClosedWalk(E, [1, 1]);
    assert Walk(E, [1, 2]) && [1, 2][0] == 1 && [1, 2][|[1, 2]| - 1] == 2;
    assert Reaches(E, [1, 1][0], 2);
    UnlistedHasNone(pairs, 2);
  }

  /** The loop over the growing answer. */
  method RetireAll<T(==,!new)>(ghost pairs: seq<(T, T)>, ghost nodes: set<T>, answer0: seq<T>,
                               numParents0: map<T, int>, children0: map<T, seq<T>>)
    returns (answer: seq<T>, numParents: map<T, int>, children: map<T, seq<T>>)
    requires SortState(pairs, nodes, answer0, 0, numParents0, children0)
    ensures SortState(pairs, nodes, answer, |answer|, numParents, children)
  {
    answer, numParents, children := answer0, numParents0, children0;
    var i := 0;
    while i < |answer|
      invariant SortState(pairs, nodes, answer, i, numParents, children)
      decreases numParents.Keys
    {
      answer, numParents, children := RetireNext(pairs, nodes, answer, i, numParents, children);
      i := i + 1;
    }
  }

  lemma StartState<T(!new)>(pairs: seq<(T, T)>, nodes: set<T>, answer: seq<T>, numParents: map<T, int>,
                            children: map<T, seq<T>>)
    requires TablesAgree(pairs, nodes, {}, numParents, children) && Distinct(answer)
    requires forall x :: x in answer ==> x in numParents && numParents[x] == 0
    requires forall x :: x in numParents && numParents[x] == 0 ==> x in answer
    ensures SortState(pairs, nodes, answer, 0, numParents, children)
  {
    StartKeepsInvariant(pairs, answer, numParents);
    assert Retired(answer, 0) == {};
  }

  /** Sort the pairs into dependency order. Normal return exactly on acyclic input; on a
      cycle the exception carries the sorted part and, exactly, what cycles lead to. */
  method Topsort<T(==,!new)>(pairlist: seq<(T, T)>) returns (r: Outcome<T>)
    ensures r.Sorted? <==> Acyclic(EdgesOf(pairlist))
    ensures r.Sorted? ==> TopologicalOrder(EdgesOf(pairlist), Elements(EdgesOf(pairlist)), r.order)
    ensures r.CycleError? ==> StuckReport(pairlist, Elements(EdgesOf(pairlist)), r.answer, r.numParents, r.children)
  {
    ghost var nodes := Elements(EdgesOf(pairlist));
    var numParents, children := CountParents(pairlist);
    var answer := KeysWithoutParent(numParents);
    StartState(pairlist, nodes, answer, numParents, children);
    answer, numParents, children := RetireAll(pairlist, nodes, answer, numParents, children);
    FinishSort(pairlist, nodes, answer, numParents, children);
    if numParents != map[] {
      return CycleError(answer, numParents, children);
    }
    return Sorted(answer);
  }
}
