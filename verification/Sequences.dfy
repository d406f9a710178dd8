/** Facts about sequences that several components share. */
module Sequences {

  ghost predicate Distinct<T>(s: seq<T>) {
    forall i, j :: 0 <= i < j < |s| ==> s[i] != s[j]
  }

  /** The numbers of the set, in ascending order. */
  ghost predicate Lists(at: seq<nat>, numbers: set<nat>) {
    && (forall i, j :: 0 <= i < j < |at| ==> at[i] < at[j])
    && (forall n :: n in at <==> n in numbers)
  }

  lemma ListsOneMore(at: seq<nat>, numbers: set<nat>, n: nat)
    requires Lists(at, numbers) && forall k :: k in numbers ==> k < n
    ensures Lists(at + [n], numbers + {n})
  {
    forall i | 0 <= i < |at| ensures at[i] < n {
      assert at[i] in at;
    }
  }

  lemma Regroup<T>(x: seq<T>, y: seq<T>, z: seq<T>)
    ensures (x + y) + z == x + (y + z)
  {
  }
}
