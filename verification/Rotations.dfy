/** is_rotated from rad_util.py: comparing two lists up to rotation. */
module Rotations {

  predicate RotatedBy<T(==)>(s: seq<T>, t: seq<T>, k: nat) {
    k < |s| && t == s[k..] + s[..k]
  }

  ghost predicate IsRotation<T>(s: seq<T>, t: seq<T>) {
    exists k :: RotatedBy(s, t, k)
  }

  lemma RotationReflexive<T>(s: seq<T>)
    requires s != []
    ensures IsRotation(s, s)
  {
    assert RotatedBy(s, s, 0);
  }

  lemma RotationSymmetric<T>(s: seq<T>, t: seq<T>)
    requires IsRotation(s, t)
    ensures IsRotation(t, s)
  {
    var k: nat :| RotatedBy(s, t, k);
    if k == 0 {
      assert s == t;
      RotationReflexive(s);
    } else {
      assert RotatedBy(t, s, |s| - k);
    }
  }

  lemma RotatedAt<T>(s: seq<T>, t: seq<T>, k: nat, i: nat)
    requires RotatedBy(s, t, k) && i < |s|
    ensures |t| == |s| && t[i] == if k + i < |s| then s[k + i] else s[k + i - |s|]
  {
  }

  lemma TwoRotations<T>(s: seq<T>, t: seq<T>, u: seq<T>, k: nat, m: nat, n: nat, i: nat)
    requires RotatedBy(s, t, k) && RotatedBy(t, u, m) && i < |s|
    requires n == if k + m < |s| then k + m else k + m - |s|
    ensures |u| == |s| && u[i] == (s[n..] + s[..n])[i]
  {
    RotatedAt(t, u, m, i);
    RotatedAt(s, t, k, if m + i < |t| then m + i else m + i - |t|);
  }

  lemma RotationTransitive<T>(s: seq<T>, t: seq<T>, u: seq<T>)
    requires IsRotation(s, t) && IsRotation(t, u)
    ensures IsRotation(s, u)
  {
    var k: nat :| RotatedBy(s, t, k);
    var m: nat :| RotatedBy(t, u, m);
    var n := if k + m < |s| then k + m else k + m - |s|;
    forall i | 0 <= i < |s|
      ensures |u| == |s| && u[i] == (s[n..] + s[..n])[i]
    {
      TwoRotations(s, t, u, k, m, n, i);
    }
    assert RotatedBy(s, u, n);
  }

  /** A window of the doubled list is a rotation of the list. */
  lemma WindowOfDouble<T>(s: seq<T>, k: nat)
    requires k < |s|
    ensures (s + s)[k..k + |s|] == s[k..] + s[..k]
  {
  }

  /** The first item of the second list is looked up, so two empty lists are an error. */
  method IsRotated<T(==)>(seq1: seq<T>, seq2: seq<T>) returns (r: bool)
    requires |seq1| == |seq2| ==> seq2 != []
    ensures r <==> IsRotation(seq1, seq2)
  {
    if |seq1| != |seq2| {
      return false;
    }
    var startIndexes: seq<nat> := [];
    var headItem := seq2[0];
    for index1 := 0 to |seq1|
      invariant forall n :: n in startIndexes <==> 0 <= n < index1 && seq1[n] == headItem
    {
      if seq1[index1] == headItem {
        startIndexes := startIndexes + [index1];
      }
    }
    var doubleSeq1 := seq1 + seq1;
    for i := 0 to |startIndexes|
      invariant forall n :: 0 <= n < i ==> !RotatedBy(seq1, seq2, startIndexes[n])
    {
      var index1 := startIndexes[i];
      assert index1 in startIndexes;
      WindowOfDouble(seq1, index1);
      if doubleSeq1[index1..index1 + |seq1|] == seq2 {
        assert RotatedBy(seq1, seq2, index1);
        return true;
      }
    }
    forall k: nat | k < |seq1|
      ensures !RotatedBy(seq1, seq2, k)
    {
      if seq1[k] == headItem {
        assert k in startIndexes;
      }
    }
    return false;
  }
}
