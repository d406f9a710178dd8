/** Rotations of sequences and the search that decides them. */
module Rotation {

  datatype Answer = Yes | No | IndexError

  /** t is s with some prefix moved to the end. */
  ghost predicate IsRotation<T>(s: seq<T>, t: seq<T>) {
    exists k :: 0 <= k <= |s| && t == Rotate(s, k)
  }

  ghost function Rotate<T>(s: seq<T>, k: int): seq<T>
    requires 0 <= k <= |s|
  {
    s[k..] + s[..k]
  }

  /** Decides rotation, except that looking at the head of an empty second sequence
      raises an error. */
  method IsRotated<T(==)>(seq1: seq<T>, seq2: seq<T>) returns (r: Answer)
    ensures r == IndexError <==> seq1 == [] && seq2 == []
    ensures r == Yes ==> IsRotation(seq1, seq2)
    ensures r == No ==> !IsRotation(seq1, seq2)
  {
    if |seq1| != |seq2| {
      return No;
    }
    if seq2 == [] {
      return IndexError;
    }
    var startIndexes: seq<int> := [];
    var headItem := seq2[0];
    for index1 := 0 to |seq1|
      invariant forall i :: i in startIndexes ==> 0 <= i < |seq1|
      invariant forall i :: 0 <= i < index1 && seq1[i] == headItem ==> i in startIndexes
    {
      if seq1[index1] == headItem {
        startIndexes := startIndexes + [index1];
      }
    }
    var doubleSeq1 := seq1 + seq1;
    for j := 0 to |startIndexes|
      invariant forall i :: 0 <= i <= |seq1| && i in startIndexes[..j] ==> seq2 != Rotate(seq1, i)
    {
      var index1 := startIndexes[j];
      assert index1 in startIndexes;
      assert doubleSeq1[index1..index1 + |seq1|] == Rotate(seq1, index1);
      if doubleSeq1[index1..index1 + |seq1|] == seq2 {
        return Yes;
      }
      assert startIndexes[..j + 1] == startIndexes[..j] + [index1];
    }
    assert startIndexes[..|startIndexes|] == startIndexes;
    assert Rotate(seq1, |seq1|) == Rotate(seq1, 0);
    forall k | 0 <= k <= |seq1| ensures seq2 != Rotate(seq1, k) {
      if k < |seq1| && seq1[k] != headItem {
        assert Rotate(seq1, k)[0] == seq1[k];
      }
    }
    return No;
  }

  lemma RotationReflexive<T>(s: seq<T>)
    ensures IsRotation(s, s)
  {
    assert Rotate(s, 0) == s;
  }

  lemma RotationSymmetric<T>(s: seq<T>, t: seq<T>)
    requires IsRotation(s, t)
    ensures IsRotation(t, s)
  {
    var k :| 0 <= k <= |s| && t == Rotate(s, k);
    assert Rotate(t, |s| - k) == s;
  }

  lemma RotationTransitive<T>(s: seq<T>, t: seq<T>, u: seq<T>)
    requires IsRotation(s, t) && IsRotation(t, u)
    ensures IsRotation(s, u)
  {
    var j :| 0 <= j <= |s| && t == Rotate(s, j);
    var k :| 0 <= k <= |t| && u == Rotate(t, k);
    if j + k <= |s| {
      RotateWithin(s, j, k);
    } else {
      RotateAround(s, j, k);
    }
  }

  lemma RotateWithin<T>(s: seq<T>, j: nat, k: nat)
    requires j + k <= |s|
    ensures Rotate(Rotate(s, j), k) == Rotate(s, j + k)
  {
    var t := Rotate(s, j);
    assert t[k..] == s[j + k..] + s[..j];
    assert t[..k] == s[j..j + k];
    assert s[..j] + s[j..j + k] == s[..j + k];
  }

  lemma RotateAround<T>(s: seq<T>, j: nat, k: nat)
    requires j <= |s| && k <= |s| < j + k
    ensures Rotate(Rotate(s, j), k) == Rotate(s, j + k - |s|)
  {
    var t, m := Rotate(s, j), j + k - |s|;
    assert t[k..] == s[m..j];
    assert t[..k] == s[j..] + s[..m];
    assert s[m..j] + s[j..] == s[m..];
  }
}
