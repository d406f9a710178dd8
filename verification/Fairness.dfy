/** Jain's fairness index of byte counters, computed in 64-bit unsigned arithmetic. */
module Fairness {
  import opened Totals
  import opened Wrappers

  const TWO_TO_THE_64: nat := 0x1_0000_0000_0000_0000

  function Same(x: nat): int { x }

  function Square(x: nat): int { x * x }

  ghost function Sum(s: seq<nat>): int { Total(s, Same) }

  ghost function Squares(s: seq<nat>): int { Total(s, Square) }

  ghost predicate AllEqual(s: seq<nat>) {
    forall i, j :: 0 <= i < |s| && 0 <= j < |s| ==> s[i] == s[j]
  }

  ghost predicate Accumulated(s: seq<nat>, sum: nat, sumSquares: nat) {
    sum == Sum(s) % TWO_TO_THE_64 && sumSquares == Squares(s) % TWO_TO_THE_64
  }

  /** Wrapping around one operand first does not change the wrapped sum. */
  lemma WrappingAdd(a: int, b: int)
    ensures (a % TWO_TO_THE_64 + b) % TWO_TO_THE_64 == (a + b) % TWO_TO_THE_64
  {
    var sum := a % TWO_TO_THE_64 + b;
    var laps := a / TWO_TO_THE_64 + sum / TWO_TO_THE_64;
    assert a + b == laps * TWO_TO_THE_64 + sum % TWO_TO_THE_64;
    Remainder(a + b, laps, sum % TWO_TO_THE_64);
  }

  lemma Remainder(a: int, laps: int, rest: int)
    requires a == laps * TWO_TO_THE_64 + rest && 0 <= rest < TWO_TO_THE_64
    ensures a % TWO_TO_THE_64 == rest
  {
  }

  lemma AccumulateOne(s: seq<nat>, i: nat, sum: nat, sumSquares: nat)
    requires i < |s| && Accumulated(s[..i], sum, sumSquares)
    ensures Accumulated(s[..i + 1], (sum + s[i]) % TWO_TO_THE_64, (sumSquares + (s[i] * s[i]) % TWO_TO_THE_64) % TWO_TO_THE_64)
  {
    assert s[..i + 1] == s[..i] + [s[i]];
    TotalPush(s[..i], s[i], Same);
    TotalPush(s[..i], s[i], Square);
    var square := s[i] * s[i];
    WrappingAdd(Sum(s[..i]), s[i]);
    WrappingAdd(Squares(s[..i]), square);
    WrappingAdd(square, sumSquares);
  }

  ghost predicate Quotient(dividend: nat, divisor: nat, q: Option<real>) {
    if divisor == 0 then q.None? else q.Some? && q.value * divisor as real == dividend as real
  }

  /** The quotient as a floating-point division gives it, rounding aside; a zero divisor gives
      no number. */
  function Divide(dividend: nat, divisor: nat): (q: Option<real>)
    ensures Quotient(dividend, divisor, q)
  {
    if divisor == 0 then None else Some(dividend as real / divisor as real)
  }

  /** A fraction between 1/n and 1, undefined only when every counter is zero, and 1 exactly when
      the counters are equal. */
  ghost predicate IsFairness(s: seq<nat>, fairness: Option<real>) {
    && (fairness.None? <==> forall i :: 0 <= i < |s| ==> s[i] == 0)
    && (fairness.Some? ==>
          && 1.0 <= |s| as real * fairness.value && fairness.value <= 1.0
          && (fairness.value == 1.0 <==> AllEqual(s)))
  }

  // ---- The two sums compared

  lemma {:induction false} SumsNonNegative(s: seq<nat>)
    ensures Sum(s) >= 0 && Squares(s) >= 0
    ensures (Squares(s) == 0 <==> forall i :: 0 <= i < |s| ==> s[i] == 0)
  {
    if s != [] {
      var init, x := s[..|s| - 1], s[|s| - 1];
      SumsNonNegative(init);
      assert x * x >= 0 && (x * x == 0 <==> x == 0);
      assert forall i :: 0 <= i < |init| ==> init[i] == s[i];
    }
  }

  /** The squared distances from a value, summed without summing them. */
  ghost function Spread(s: seq<nat>, x: nat): int {
    Squares(s) - 2 * x * Sum(s) + |s| * x * x
  }

  lemma SpreadStep(q: int, t: int, n: nat, y: nat, x: nat)
    ensures (q + y * y) - 2 * x * (t + y) + (n + 1) * x * x == (q - 2 * x * t + n * x * x) + (y - x) * (y - x)
  {
    assert 2 * x * (t + y) == 2 * x * t + 2 * x * y;
    assert (n + 1) * x * x == n * x * x + x * x;
    assert (y - x) * (y - x) == y * y - 2 * x * y + x * x;
  }

  lemma SquareSign(d: int)
    ensures d * d >= 0 && (d * d == 0 <==> d == 0)
  {
  }

  lemma {:induction false} SpreadSign(s: seq<nat>, x: nat)
    ensures Spread(s, x) >= 0
    ensures Spread(s, x) == 0 <==> forall i :: 0 <= i < |s| ==> s[i] == x
  {
    if s != [] {
      var init, y := s[..|s| - 1], s[|s| - 1];
      SpreadSign(init, x);
      SpreadStep(Squares(init), Sum(init), |init|, y, x);
      SquareSign(y - x);
      assert forall i :: 0 <= i < |init| ==> init[i] == s[i];
    }
  }

  lemma GapStep(q: int, t: int, n: nat, x: nat)
    ensures (n + 1) * (q + x * x) - (t + x) * (t + x) == (n * q - t * t) + (q - 2 * x * t + n * x * x)
  {
    assert (n + 1) * (q + x * x) == n * q + n * (x * x) + q + x * x;
    assert n * (x * x) == n * x * x;
    assert (t + x) * (t + x) == t * t + 2 * x * t + x * x;
  }

  /** The square of the sum against n times the sum of squares: never more, and the same exactly
      for equal counters. */
  lemma {:induction false} SquareOfSum(s: seq<nat>)
    ensures Sum(s) * Sum(s) <= |s| * Squares(s)
    ensures Sum(s) * Sum(s) == |s| * Squares(s) <==> AllEqual(s)
  {
    if s != [] {
      var init, x := s[..|s| - 1], s[|s| - 1];
      SquareOfSum(init);
      SpreadSign(init, x);
      GapStep(Squares(init), Sum(init), |init|, x);
      assert forall i :: 0 <= i < |init| ==> init[i] == s[i];
    }
  }

  lemma {:induction false} SquaresBelow(s: seq<nat>)
    ensures Squares(s) <= Sum(s) * Sum(s)
  {
    if s != [] {
      var init, x := s[..|s| - 1], s[|s| - 1];
      SquaresBelow(init);
      SumsNonNegative(init);
      var t := Sum(init);
      assert (t + x) * (t + x) == t * t + 2 * (t * x) + x * x && t * x >= 0;
    }
  }

  // ---- No overflow

  ghost predicate Bounded(s: seq<nat>, n: nat, bound: nat) {
    |s| == n && forall i :: 0 <= i < |s| ==> s[i] <= bound
  }

  ghost predicate Exact(s: seq<nat>) {
    Sum(s) * Sum(s) < TWO_TO_THE_64 && |s| * Squares(s) < TWO_TO_THE_64
  }

  lemma MulMono(a: nat, b: nat, c: nat, d: nat)
    requires a <= b && c <= d
    ensures a * c <= b * d
  {
    assert a * c <= b * c <= b * d;
  }

  lemma {:induction false} SumsBounded(s: seq<nat>, bound: nat)
    requires Bounded(s, |s|, bound)
    ensures 0 <= Sum(s) <= |s| * bound && 0 <= Squares(s) <= |s| * (bound * bound)
  {
    if s != [] {
      var init, x := s[..|s| - 1], s[|s| - 1];
      SumsBounded(init, bound);
      MulMono(x, bound, x, bound);
      assert |s| * bound == |init| * bound + bound;
      assert |s| * (bound * bound) == |init| * (bound * bound) + bound * bound;
    }
  }

  lemma {:induction false} SumsOfConstant(n: nat, x: nat)
    ensures Sum(seq(n, _ => x)) == n * x
  {
    if n > 0 {
      SumsOfConstant(n - 1, x);
      assert seq(n, _ => x)[..n - 1] == seq(n - 1, _ => x);
      assert n * x == (n - 1) * x + x;
    }
  }

  /** No product overflows for any n counters up to the bound exactly when (n * bound) squared
      fits in 64 bits. */
  lemma ExactIffBoundSmall(n: nat, bound: nat)
    ensures (forall s :: Bounded(s, n, bound) ==> Exact(s)) <==> (n * bound) * (n * bound) < TWO_TO_THE_64
  {
    if (n * bound) * (n * bound) < TWO_TO_THE_64 {
      forall s | Bounded(s, n, bound) ensures Exact(s) {
        SumsBounded(s, bound);
        MulMono(Sum(s), n * bound, Sum(s), n * bound);
        MulMono(n, n, Squares(s), n * (bound * bound));
        Regroup(n, bound);
      }
    } else {
      var s := seq(n, _ => bound);
      SumsOfConstant(n, bound);
      assert Bounded(s, n, bound) && !Exact(s);
    }
  }

  lemma Regroup(n: nat, b: nat)
    ensures n * (n * (b * b)) == (n * b) * (n * b)
  {
    assert n * (b * b) == (n * b) * b;
    assert n * ((n * b) * b) == (n * b) * (n * b);
  }

  /** Comparing a factor with one is comparing the product with the other factor. */
  lemma AtMostOne(f: real, d: real)
    requires d > 0.0
    ensures f * d <= d ==> f <= 1.0
  {
    assert (1.0 - f) * d == d - f * d;
  }

  lemma AtLeastOne(f: real, d: real)
    requires d > 0.0
    ensures f * d >= d ==> f >= 1.0
  {
    assert (f - 1.0) * d == f * d - d;
  }

  /** A quotient of two naturals is one exactly when they are equal. */
  lemma OneIffEqual(f: real, p: nat, t: nat)
    requires p > 0 && f * p as real == t as real
    ensures f == 1.0 <==> t == p
  {
    AtMostOne(f, p as real);
    AtLeastOne(f, p as real);
    assert f == 1.0 ==> f * p as real == p as real;
  }

  lemma Ratio(f: real, n: nat, q: nat, t: nat)
    requires n * q > 0 && f * (n * q) as real == t as real && q <= t <= n * q
    ensures 1.0 <= n as real * f && f <= 1.0 && (f == 1.0 <==> t == n * q)
  {
    AtMostOne(f, (n * q) as real);
    OneIffEqual(f, n * q, t);
    AtLeastOnce(f, n, q, t);
  }

  lemma MulRegroup(f: real, x: real, y: real)
    ensures (x * f) * y == f * (x * y)
  {
  }

  lemma AtLeastOnce(f: real, n: nat, q: nat, t: nat)
    requires n * q > 0 && f * (n * q) as real == t as real && q <= t
    ensures 1.0 <= n as real * f
  {
    var x, y := n as real, q as real;
    assert q > 0 && (n * q) as real == x * y;
    MulRegroup(f, x, y);
    assert (x * f) * y == t as real && t as real >= y;
    AtLeastOne(x * f, y);
  }

  lemma QuotientMeaning(s: seq<nat>, fairness: Option<real>)
    requires s != [] && Squares(s) >= 0 && Sum(s) >= 0
    requires Quotient(Sum(s) * Sum(s), |s| * Squares(s), fairness)
    ensures IsFairness(s, fairness)
  {
    SumsNonNegative(s);
    SquareOfSum(s);
    SquaresBelow(s);
    if fairness.Some? {
      MulMono(0, |s|, 0, Squares(s));
      Ratio(fairness.value, |s|, Squares(s), Sum(s) * Sum(s));
    } else {
      MulMono(1, |s|, Squares(s), Squares(s));
    }
  }

  // ---- The report

  lemma Exactly(s: seq<nat>)
    requires s != [] && Exact(s)
    ensures Sum(s) % TWO_TO_THE_64 == Sum(s) && Squares(s) % TWO_TO_THE_64 == Squares(s)
  {
    SumsNonNegative(s);
    MulMono(1, |s|, Squares(s), Squares(s));
    if Sum(s) > 0 { MulMono(1, Sum(s), Sum(s), Sum(s)); }
  }

  /** Without overflow the quotient is the fairness index. */
  lemma IndexMeaning(s: seq<nat>, sum: nat, sumSquares: nat, fairness: Option<real>)
    requires Accumulated(s, sum, sumSquares)
    requires Quotient((sum * sum) % TWO_TO_THE_64, (|s| * sumSquares) % TWO_TO_THE_64, fairness)
    ensures s != [] && Exact(s) ==> IsFairness(s, fairness)
  {
    if s != [] && Exact(s) {
      Exactly(s);
      SumsNonNegative(s);
      QuotientMeaning(s, fairness);
    }
  }

  /** One block of the report: the two sums, each operation wrapping around, and the quotient,
      which does not exist when the divisor is zero. */
  method Index(counters: seq<nat>) returns (sum: nat, sumSquares: nat, fairness: Option<real>)
    ensures sum == Sum(counters) % TWO_TO_THE_64 && sumSquares == Squares(counters) % TWO_TO_THE_64
    ensures Quotient((sum * sum) % TWO_TO_THE_64, (|counters| * sumSquares) % TWO_TO_THE_64, fairness)
    ensures counters != [] && Exact(counters) ==> IsFairness(counters, fairness)
  {
    sum, sumSquares := 0, 0;
    for i := 0 to |counters|
      invariant Accumulated(counters[..i], sum, sumSquares)
    {
      AccumulateOne(counters, i, sum, sumSquares);
      sum := (sum + counters[i]) % TWO_TO_THE_64;
      sumSquares := (sumSquares + (counters[i] * counters[i]) % TWO_TO_THE_64) % TWO_TO_THE_64;
    }
    assert counters[..|counters|] == counters;
    fairness := Divide((sum * sum) % TWO_TO_THE_64, (|counters| * sumSquares) % TWO_TO_THE_64);
    IndexMeaning(counters, sum, sumSquares, fairness);
  }
}
