/** Rotations of a list: the comparison that tells two listings of one cycle apart from
    two different cycles. */
module Rotations {
  import opened Wrappers

  ghost function Rotated<T>(s: seq<T>, k: nat): (r: seq<T>)
    requires k <= |s|
    ensures |r| == |s|
  {
    s[k..] + s[..k]
  }

  ghost predicate IsRotation<T>(s: seq<T>, t: seq<T>) {
    exists k :: 0 <= k <= |s| && t == Rotated(s, k)
  }

  lemma RotationReflexive<T>(s: seq<T>)
    ensures IsRotation(s, s)
  {
    assert Rotated(s, 0) == s;
  }

  lemma RotationSymmetric<T>(s: seq<T>, t: seq<T>)
    requires IsRotation(s, t)
    ensures IsRotation(t, s)
  {
    var k :| 0 <= k <= |s| && t == Rotated(s, k);
    assert Rotated(t, |s| - k) == s;
  }

  lemma RotatedTwice<T>(s: seq<T>, k: nat, m: nat)
    requires k <= |s| && m <= |s|
    ensures Rotated(Rotated(s, k), m) == Rotated(s, if k + m <= |s| then k + m else k + m - |s|)
  {
    var t, n := Rotated(s, k), if k + m <= |s| then k + m else k + m - |s|;
    forall i | 0 <= i < |s|
      ensures Rotated(t, m)[i] == Rotated(s, n)[i]
    {
      var j := if i + m < |s| then i + m else i + m - |s|;
      assert Rotated(t, m)[i] == t[j];
    }
  }

  lemma RotationTransitive<T>(s: seq<T>, t: seq<T>, u: seq<T>)
    requires IsRotation(s, t) && IsRotation(t, u)
    ensures IsRotation(s, u)
  {
    var k :| 0 <= k <= |s| && t == Rotated(s, k);
    var m :| 0 <= m <= |t| && u == Rotated(t, m);
    RotatedTwice(s, k, m);
    hide Rotated;
  }

  /** Whether seq1 is a rotation of seq2; None is the IndexError on two empty lists, whose
      head item does not exist. */
  method IsRotated<T(==)>(seq1: seq<T>, seq2: seq<T>) returns (r: Option<bool>)
    ensures r.None? <==> seq1 == [] && seq2 == []
    ensures r.Some? ==> (r.value <==> IsRotation(seq1, seq2))
  {
    if |seq1| != |seq2| {
      return Some(false);
    }
    if |seq2| == 0 {
      return None;
    }
    var startIndexes: seq<nat> := [];
    var headItem := seq2[0];
    for index1 := 0 to |seq1|
      invariant forall k :: k in startIndexes <==> 0 <= k < index1 && seq1[k] == headItem
      invariant forall j :: 0 <= j < |startIndexes| ==> startIndexes[j] < |seq1|
    {
      if seq1[index1] == headItem {
        startIndexes := startIndexes + [index1];
      }
    }
    var doubleSeq1 := seq1 + seq1;
    for i := 0 to |startIndexes|
      invariant forall j :: 0 <= j < i ==> seq2 != Rotated(seq1, startIndexes[j])
    {
      var index1 := startIndexes[i];
      assert index1 in startIndexes;
      assert doubleSeq1[index1..index1 + |seq1|] == Rotated(seq1, index1);
      if doubleSeq1[index1..index1 + |seq1|] == seq2 {
        return Some(true);
      }
    }
    forall k | 0 <= k <= |seq1|
      ensures seq2 != Rotated(seq1, k)
    {
      var start := if k == |seq1| then 0 else k;
      assert Rotated(seq1, k) == Rotated(seq1, start);
      assert Rotated(seq1, start)[0] == seq1[start];
    }
    return Some(false);
  }
}
