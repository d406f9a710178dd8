/** Sums over sequences and how they move when one element is added, removed or replaced. */
module Totals {

  ghost function Total<A>(s: seq<A>, f: A -> int): int {
    if s == [] then 0 else Total(s[..|s| - 1], f) + f(s[|s| - 1])
  }

  lemma TotalPush<A>(s: seq<A>, x: A, f: A -> int)
    ensures Total(s + [x], f) == Total(s, f) + f(x)
  {
    assert (s + [x])[..|s|] == s;
  }

  lemma {:induction false} TotalPop<A>(s: seq<A>, f: A -> int)
    requires s != []
    ensures Total(s, f) == f(s[0]) + Total(s[1..], f)
  {
    if |s| > 1 {
      TotalPop(s[..|s| - 1], f);
      assert s[..|s| - 1][1..] == s[1..][..|s| - 2];
    }
  }

  lemma {:induction false} TotalReplace<A>(s: seq<A>, i: nat, x: A, f: A -> int)
    requires i < |s|
    ensures Total(s[i := x], f) == Total(s, f) - f(s[i]) + f(x)
  {
    if i == |s| - 1 {
      assert s[i := x][..i] == s[..i];
    } else {
      assert s[i := x][..|s| - 1] == s[..|s| - 1][i := x];
      TotalReplace(s[..|s| - 1], i, x, f);
    }
  }

  lemma OneMoreTerm(bound: nat, n: nat)
    requires n > 0
    ensures bound * n == bound * (n - 1) + bound
  {
  }

  /** A sum of terms between 0 and bound, and the member a positive term needs. */
  lemma {:induction false} TotalRange<A>(s: seq<A>, f: A -> int, bound: nat)
    requires forall i :: 0 <= i < |s| ==> 0 <= f(s[i]) <= bound
    ensures 0 <= Total(s, f) <= bound * |s|
    ensures forall i :: 0 <= i < |s| ==> f(s[i]) <= Total(s, f)
    ensures Total(s, f) > 0 ==> exists i :: 0 <= i < |s| && f(s[i]) > 0
  {
    if s != [] {
      var init := s[..|s| - 1];
      TotalRange(init, f, bound);
      OneMoreTerm(bound, |s|);
      if f(s[|s| - 1]) == 0 && Total(s, f) > 0 {
        var i :| 0 <= i < |init| && f(init[i]) > 0;
        assert f(s[i]) > 0;
      }
      forall i | 0 <= i < |s| ensures f(s[i]) <= Total(s, f) {
        if i < |init| { assert init[i] == s[i]; }
      }
    }
  }

  /** A sum of zeroes and ones that reaches the length has only ones. */
  lemma {:induction false} TotalFull<A>(s: seq<A>, f: A -> int)
    requires forall i :: 0 <= i < |s| ==> 0 <= f(s[i]) <= 1
    requires Total(s, f) >= |s|
    ensures forall i :: 0 <= i < |s| ==> f(s[i]) == 1
  {
    if s != [] {
      var init := s[..|s| - 1];
      TotalRange(init, f, 1);
      TotalFull(init, f);
      forall i | 0 <= i < |s| ensures f(s[i]) == 1 {
        if i < |init| { assert init[i] == s[i]; }
      }
    }
  }

  lemma {:induction false} TotalConcat<A>(a: seq<A>, b: seq<A>, f: A -> int)
    ensures Total(a + b, f) == Total(a, f) + Total(b, f)
  {
    if b == [] {
      assert a + b == a;
    } else {
      TotalConcat(a, b[..|b| - 1], f);
      assert (a + b)[..|a + b| - 1] == a + b[..|b| - 1];
    }
  }

  lemma TotalOne<A>(x: A, f: A -> int)
    ensures Total([x], f) == f(x)
  {
    assert [x][..0] == [];
  }

  lemma {:induction false} TotalNonNegative<A>(s: seq<A>, f: A -> int)
    requires forall k :: 0 <= k < |s| ==> f(s[k]) >= 0
    ensures Total(s, f) >= 0
  {
    if s != [] { TotalNonNegative(s[..|s| - 1], f); }
  }

  lemma {:induction false} TotalPositive<A>(s: seq<A>, f: A -> int, i: nat)
    requires i < |s| && f(s[i]) > 0 && forall k :: 0 <= k < |s| ==> f(s[k]) >= 0
    ensures Total(s, f) > 0
  {
    TotalNonNegative(s[..|s| - 1], f);
    if i < |s| - 1 { TotalPositive(s[..|s| - 1], f, i); }
  }
}
