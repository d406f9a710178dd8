/** All permutations of a list: recursion on the tail, then the head at every position. */
module Permutations {
  import opened Sequences

  function Factorial(n: nat): nat {
    if n == 0 then 1 else n * Factorial(n - 1)
  }

  /** A copy of sub with the item inserted in front of position i. */
  function InsertAt<T>(sub: seq<T>, i: nat, item: T): seq<T>
    requires i <= |sub|
  {
    sub[..i] + [item] + sub[i..]
  }

  function InsertEverywhere<T>(sub: seq<T>, item: T, n: nat): seq<seq<T>>
    requires n <= |sub| + 1
  {
    if n == 0 then [] else InsertEverywhere(sub, item, n - 1) + [InsertAt(sub, n - 1, item)]
  }

  function InsertIntoAll<T>(subs: seq<seq<T>>, item: T): seq<seq<T>> {
    if subs == [] then []
    else
      var last := subs[|subs| - 1];
      InsertIntoAll(subs[..|subs| - 1], item) + InsertEverywhere(last, item, |last| + 1)
  }

  function Perms<T>(s: seq<T>): seq<seq<T>> {
    if |s| > 1 then InsertIntoAll(Perms(s[1..]), s[0]) else [s]
  }

  ghost predicate Rearranges<T>(t: seq<T>, s: seq<T>) {
    multiset(t) == multiset(s)
  }

  lemma SameSize<T>(t: seq<T>, s: seq<T>)
    requires Rearranges(t, s)
    ensures |t| == |s|
  {
    assert |multiset(t)| == |t| && |multiset(s)| == |s|;
  }

  // ---- Membership of the three functions

  lemma {:induction false} EverywhereMembers<T>(sub: seq<T>, item: T, n: nat)
    requires n <= |sub| + 1
    ensures |InsertEverywhere(sub, item, n)| == n
    ensures forall i :: 0 <= i < n ==> InsertEverywhere(sub, item, n)[i] == InsertAt(sub, i, item)
  {
    if n > 0 { EverywhereMembers(sub, item, n - 1); }
  }

  lemma {:induction false} IntoAllMembers<T>(subs: seq<seq<T>>, item: T, t: seq<T>)
    ensures t in InsertIntoAll(subs, item) <==>
      exists k, i :: 0 <= k < |subs| && 0 <= i <= |subs[k]| && t == InsertAt(subs[k], i, item)
  {
    if subs != [] {
      var init, last := subs[..|subs| - 1], subs[|subs| - 1];
      IntoAllMembers(init, item, t);
      EverywhereMembers(last, item, |last| + 1);
      if t in InsertIntoAll(init, item) {
        var k, i :| 0 <= k < |init| && 0 <= i <= |init[k]| && t == InsertAt(init[k], i, item);
        assert subs[k] == init[k];
      } else if t in InsertEverywhere(last, item, |last| + 1) {
        var i :| 0 <= i < |last| + 1 && InsertEverywhere(last, item, |last| + 1)[i] == t;
        assert t == InsertAt(subs[|subs| - 1], i, item);
      }
      if k, i :| 0 <= k < |subs| && 0 <= i <= |subs[k]| && t == InsertAt(subs[k], i, item) {
        if k < |init| {
          assert init[k] == subs[k];
        } else {
          assert InsertEverywhere(last, item, |last| + 1)[i] == t;
        }
      }
    }
  }

  // ---- Soundness and count

  lemma InsertRearranges<T>(sub: seq<T>, i: nat, item: T)
    requires i <= |sub|
    ensures multiset(InsertAt(sub, i, item)) == multiset(sub) + multiset{item}
  {
    assert sub == sub[..i] + sub[i..];
  }

  /** Every list produced is a rearrangement of the input. */
  lemma {:induction false} PermsAreRearrangements<T>(s: seq<T>)
    ensures forall t :: t in Perms(s) ==> Rearranges(t, s)
  {
    if |s| > 1 {
      PermsAreRearrangements(s[1..]);
      assert s == [s[0]] + s[1..];
      forall t | t in Perms(s) ensures Rearranges(t, s) {
        IntoAllMembers(Perms(s[1..]), s[0], t);
        var k, i :| 0 <= k < |Perms(s[1..])| && 0 <= i <= |Perms(s[1..])[k]| && t == InsertAt(Perms(s[1..])[k], i, s[0]);
        assert Perms(s[1..])[k] in Perms(s[1..]);
        InsertRearranges(Perms(s[1..])[k], i, s[0]);
      }
    }
  }

  lemma OneMore(a: nat, n: nat)
    requires n > 0
    ensures a * (n - 1) + a == a * n
  {
    assert a * (n - 1) == a * n - a;
  }

  lemma {:induction false} IntoAllCount<T>(subs: seq<seq<T>>, item: T, size: nat)
    requires forall k :: 0 <= k < |subs| ==> |subs[k]| == size
    ensures |InsertIntoAll(subs, item)| == (size + 1) * |subs|
  {
    if subs != [] {
      var init, last := subs[..|subs| - 1], subs[|subs| - 1];
      IntoAllCount(init, item, size);
      EverywhereMembers(last, item, |last| + 1);
      OneMore(size + 1, |subs|);
    }
  }

  /** There are n! of them. */
  lemma {:induction false} PermsCount<T>(s: seq<T>)
    ensures |Perms(s)| == Factorial(|s|)
  {
    if |s| > 1 {
      PermsCount(s[1..]);
      PermsAreRearrangements(s[1..]);
      forall k | 0 <= k < |Perms(s[1..])| ensures |Perms(s[1..])[k]| == |s| - 1 {
        assert Perms(s[1..])[k] in Perms(s[1..]);
        SameSize(Perms(s[1..])[k], s[1..]);
      }
      IntoAllCount(Perms(s[1..]), s[0], |s| - 1);
    } else if |s| == 1 {
      assert Factorial(1) == 1 * Factorial(0);
    }
  }

  // ---- Completeness

  /** Taking an occurrence of the first item out of a rearrangement leaves one of the tail. */
  lemma WithoutFirst<T>(s: seq<T>, t: seq<T>, i: nat, sub: seq<T>)
    requires |s| > 0 && Rearranges(t, s) && i < |t| && t[i] == s[0] && sub == t[..i] + t[i + 1..]
    ensures Rearranges(sub, s[1..]) && t == InsertAt(sub, i, s[0])
  {
    assert t == InsertAt(sub, i, s[0]);
    InsertRearranges(sub, i, s[0]);
    assert s == [s[0]] + s[1..];
    assert multiset(s) == multiset{s[0]} + multiset(s[1..]);
    Cancel(multiset(sub), multiset(s[1..]), s[0]);
  }

  lemma Cancel<T>(a: multiset<T>, b: multiset<T>, x: T)
    requires a + multiset{x} == multiset{x} + b
    ensures a == b
  {
    assert a == (a + multiset{x}) - multiset{x};
    assert b == (multiset{x} + b) - multiset{x};
  }

  /** Every rearrangement of the input appears, repeated items or not. */
  lemma {:induction false} EveryRearrangementAppears<T>(s: seq<T>, t: seq<T>)
    requires Rearranges(t, s)
    ensures t in Perms(s)
    decreases |s|
  {
    SameSize(t, s);
    if |s| > 1 {
      assert s == [s[0]] + s[1..];
      assert s[0] in multiset(t);
      var i :| 0 <= i < |t| && t[i] == s[0];
      var sub := t[..i] + t[i + 1..];
      WithoutFirst(s, t, i, sub);
      EveryRearrangementAppears(s[1..], sub);
      var k :| 0 <= k < |Perms(s[1..])| && Perms(s[1..])[k] == sub;
      IntoAllMembers(Perms(s[1..]), s[0], t);
    } else if |s| == 1 {
      assert s == [s[0]] && t == [t[0]];
      assert s[0] in multiset(t);
    }
  }

  // ---- Distinct items give distinct lists

  /** An item absent from both lists is inserted at one place only: the place and the list
      can be read off the result. */
  lemma InsertInjective<T>(a: seq<T>, i: nat, b: seq<T>, j: nat, item: T)
    requires i <= |a| && j <= |b| && item !in a && item !in b
    requires InsertAt(a, i, item) == InsertAt(b, j, item)
    ensures i == j && a == b
  {
    var t := InsertAt(a, i, item);
    assert t[i] == item && t[j] == item;
    assert a == t[..i] + t[i + 1..];
    assert b == t[..j] + t[j + 1..];
  }

  lemma {:induction false} IntoAllDistinct<T>(subs: seq<seq<T>>, item: T)
    requires Distinct(subs) && forall k :: 0 <= k < |subs| ==> item !in subs[k]
    ensures Distinct(InsertIntoAll(subs, item))
  {
    if subs != [] {
      var init, last := subs[..|subs| - 1], subs[|subs| - 1];
      IntoAllDistinct(init, item);
      var a, b := InsertIntoAll(init, item), InsertEverywhere(last, item, |last| + 1);
      EverywhereMembers(last, item, |last| + 1);
      forall m, n | 0 <= m < n < |b| ensures b[m] != b[n] {
        if InsertAt(last, m, item) == InsertAt(last, n, item) { InsertInjective(last, m, last, n, item); }
      }
      forall m, n | 0 <= m < |a| && 0 <= n < |b| ensures a[m] != b[n] {
        assert a[m] in a;
        IntoAllMembers(init, item, a[m]);
        var k, i :| 0 <= k < |init| && 0 <= i <= |init[k]| && a[m] == InsertAt(init[k], i, item);
        assert subs[k] == init[k];
        if a[m] == b[n] { InsertInjective(init[k], i, last, n, item); }
      }
    }
  }

  /** Distinct items give pairwise distinct lists. */
  lemma {:induction false} PermsDistinct<T>(s: seq<T>)
    requires Distinct(s)
    ensures Distinct(Perms(s))
  {
    if |s| > 1 {
      PermsDistinct(s[1..]);
      PermsAreRearrangements(s[1..]);
      assert s[0] !in s[1..];
      forall k | 0 <= k < |Perms(s[1..])| ensures s[0] !in Perms(s[1..])[k] {
        assert Perms(s[1..])[k] in Perms(s[1..]);
        assert s[0] !in multiset(s[1..]);
        assert s[0] !in multiset(Perms(s[1..])[k]);
      }
      IntoAllDistinct(Perms(s[1..]), s[0]);
    }
  }

  lemma PermsExact<T>(s: seq<T>)
    ensures |Perms(s)| == Factorial(|s|)
    ensures forall t :: t in Perms(s) <==> Rearranges(t, s)
    ensures Distinct(s) ==> Distinct(Perms(s))
  {
    PermsCount(s);
    PermsAreRearrangements(s);
    forall t | Rearranges(t, s) ensures t in Perms(s) {
      EveryRearrangementAppears(s, t);
    }
    if Distinct(s) { PermsDistinct(s); }
  }

  // ---- The nested loops

  /** All rearrangements of the list, n! of them; none twice when its items are distinct. */
  method Permutations<T>(inputList: seq<T>) returns (outLists: seq<seq<T>>)
    ensures outLists == Perms(inputList) && |outLists| == Factorial(|inputList|)
    ensures forall t :: t in outLists <==> Rearranges(t, inputList)
    ensures Distinct(inputList) ==> Distinct(outLists)
    decreases |inputList|
  {
    outLists := [];
    if |inputList| > 1 {
      var item := inputList[0];
      var subLists := Permutations(inputList[1..]);
      for k := 0 to |subLists|
        invariant outLists == InsertIntoAll(subLists[..k], item)
      {
        var subList := subLists[k];
        assert subList in subLists;
        SameSize(subList, inputList[1..]);
        ghost var before := outLists;
        for i := 0 to |inputList|
          invariant outLists == before + InsertEverywhere(subList, item, i)
        {
          outLists := outLists + [InsertAt(subList, i, item)];
        }
        assert subLists[..k + 1][..k] == subLists[..k];
      }
      assert subLists[..|subLists|] == subLists;
    } else {
      outLists := [inputList];
    }
    PermsExact(inputList);
  }
}
