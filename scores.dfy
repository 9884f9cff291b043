/**
 * Score vectors: how well a scenario matches a request, one entry per match
 * dimension (method, path, headers, params, body), most significant first.
 * The backend's own `compareScores` is not part of this model; it stands here
 * as the lexicographic comparison below.
 */
module Scores {

  type ScoreVector = seq<nat>

  /** Number of match dimensions every backend scores. */
  const Dimensions: nat := 5

  /** The score a default scenario is tagged with. */
  const ZeroScore: ScoreVector := [0, 0, 0, 0, 0]

  /**
   * Lexicographic three-way comparison: positive when `a` scores higher,
   * negative when `b` does, zero on equal vectors. A vector that is a proper
   * prefix of the other compares lower (only relevant for vectors of
   * different lengths, which well-formed backends never produce).
   */
  function CompareScores(a: ScoreVector, b: ScoreVector): (c: int)
    ensures -1 <= c <= 1
    ensures c == 0 <==> a == b
  {
    if |a| == 0 && |b| == 0 then 0
    else if |a| == 0 then -1
    else if |b| == 0 then 1
    else if a[0] < b[0] then -1
    else if a[0] > b[0] then 1
    else
      var c := CompareScores(a[1..], b[1..]);
      assert c == 0 ==> a == [a[0]] + a[1..] == [b[0]] + b[1..] == b;
      c
  }

  /** Swapping the arguments flips the sign. */
  lemma {:induction false} CompareAntisymmetric(a: ScoreVector, b: ScoreVector)
    ensures CompareScores(a, b) == -CompareScores(b, a)
  {
    if |a| > 0 && |b| > 0 && a[0] == b[0] {
      CompareAntisymmetric(a[1..], b[1..]);
    }
  }

  /** "Scores no higher than" is transitive, and strictly so when either step is strict. */
  lemma {:induction false} CompareTransitive(a: ScoreVector, b: ScoreVector, c: ScoreVector)
    requires CompareScores(a, b) <= 0 && CompareScores(b, c) <= 0
    ensures CompareScores(a, c) <= 0
    ensures CompareScores(a, b) < 0 || CompareScores(b, c) < 0 ==> CompareScores(a, c) < 0
  {
    if |a| > 0 && |b| > 0 && |c| > 0 && a[0] == b[0] == c[0] {
      CompareTransitive(a[1..], b[1..], c[1..]);
    }
  }

  /** No vector of the right width scores below the default's all-zero vector. */
  lemma ZeroScoreIsLowest(s: ScoreVector)
    requires |s| == Dimensions
    ensures CompareScores(ZeroScore, s) <= 0
    ensures CompareScores(ZeroScore, s) == 0 <==> s == ZeroScore
  {
    AllZeroIsLowest(ZeroScore, s);
  }

  lemma {:induction false} AllZeroIsLowest(z: ScoreVector, s: ScoreVector)
    requires |z| == |s|
    requires forall i :: 0 <= i < |z| ==> z[i] == 0
    ensures CompareScores(z, s) <= 0
  {
    if |z| > 0 && s[0] == 0 {
      AllZeroIsLowest(z[1..], s[1..]);
    }
  }

  /**
   * The lexicographic rule: the first position where two vectors differ
   * decides, whatever follows it.
   */
  lemma {:induction false} FirstDifferenceDecides(a: ScoreVector, b: ScoreVector, i: nat)
    requires i < |a| && i < |b| && a[..i] == b[..i] && a[i] > b[i]
    ensures CompareScores(a, b) > 0
  {
    if i > 0 {
      assert a[0] == a[..i][0] == b[..i][0] == b[0];
      assert a[1..][..i - 1] == a[..i][1..] == b[..i][1..] == b[1..][..i - 1];
      FirstDifferenceDecides(a[1..], b[1..], i - 1);
    }
  }

  /** A higher leading entry wins whatever the trailing entries are: [2,0,0,0,0] beats [1,9,9,9,9]. */
  lemma LeadingEntryDominates()
    ensures CompareScores([2, 0, 0, 0, 0], [1, 9, 9, 9, 9]) > 0
  {
    FirstDifferenceDecides([2, 0, 0, 0, 0], [1, 9, 9, 9, 9], 0);
  }
}
