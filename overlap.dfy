/** The overlap detector of overlap_judge/overlap.py. */
module Overlap {

  /**
   * Particles in a flat buffer x0, y0, x1, y1, ...: `size // 2`, so a
   * trailing odd coordinate belongs to no particle.
   */
  function NumParticles(c: seq<real>): nat
  {
    |c| / 2
  }

  function Sq(x: real): real
  {
    x * x
  }

  /** Squared Euclidean distance between particles i and j. */
  function SqDist(c: seq<real>, i: int, j: int): real
    requires 0 <= i < NumParticles(c) && 0 <= j < NumParticles(c)
  {
    Sq(c[2 * i] - c[2 * j]) + Sq(c[2 * i + 1] - c[2 * j + 1])
  }

  /** The squared distance does not depend on the order of the two particles. */
  lemma SqDistSymmetric(c: seq<real>, i: int, j: int)
    requires 0 <= i < NumParticles(c) && 0 <= j < NumParticles(c)
    ensures SqDist(c, i, j) == SqDist(c, j, i)
  {
    assert Sq(c[2 * i] - c[2 * j]) == Sq(c[2 * j] - c[2 * i]);
    assert Sq(c[2 * i + 1] - c[2 * j + 1]) == Sq(c[2 * j + 1] - c[2 * i + 1]);
  }

  /** Some pair i < j lies at a squared distance strictly below `threshold`. */
  predicate HasClosePair(c: seq<real>, threshold: real)
  {
    exists i, j :: 0 <= i < j < NumParticles(c) && SqDist(c, i, j) < threshold
  }

  /** A close pair whose first particle is below `rows`. */
  predicate CloseInRows(c: seq<real>, threshold: real, rows: int)
  {
    exists i, j :: 0 <= i < rows && i < j < NumParticles(c) && SqDist(c, i, j) < threshold
  }

  /** A close pair (i, j) with i < j < `limit`. */
  predicate CloseInRow(c: seq<real>, threshold: real, i: int, limit: int)
    requires 0 <= i < NumParticles(c)
  {
    exists j :: i < j < limit && j < NumParticles(c) && SqDist(c, i, j) < threshold
  }

  /** The per-dimension accumulation of the squared distance, shared by all three scans. */
  method SquaredDistance(c: seq<real>, i: int, j: int) returns (r2: real)
    requires 0 <= i < NumParticles(c) && 0 <= j < NumParticles(c)
    ensures r2 == SqDist(c, i, j)
  {
    r2 := 0.0;
    for d := 0 to 2
      invariant d == 1 ==> r2 == Sq(c[2 * i] - c[2 * j])
      invariant d == 2 ==> r2 == SqDist(c, i, j)
      invariant d == 0 ==> r2 == 0.0
    {
      var delta := c[2 * i + d] - c[2 * j + d];
      r2 := r2 + delta * delta;
    }
  }

  /**
   * overlap_judge: scans the pairs i < j in order and stops at the first one
   * closer than sigma (squared distance against sigma squared). The early
   * exits do not change the answer.
   */
  method OverlapJudge(c: seq<real>, sigma: real) returns (overlap: bool)
    ensures overlap <==> HasClosePair(c, sigma * sigma)
  {
    var particles := |c| / 2;
    if particles == 1 {
      return false;
    }
    overlap := false;
    for i := 0 to particles
      invariant overlap ==> HasClosePair(c, sigma * sigma)
      invariant !overlap ==> !CloseInRows(c, sigma * sigma, i)
    {
      for j := i + 1 to particles
        invariant overlap ==> HasClosePair(c, sigma * sigma)
        invariant !overlap ==> !CloseInRows(c, sigma * sigma, i) && !CloseInRow(c, sigma * sigma, i, j)
      {
        var r2 := SquaredDistance(c, i, j);
        if r2 < sigma * sigma {
          overlap := true;
        }
        if overlap {
          break;
        }
      }
      if overlap {
        break;
      }
    }
  }

  /** With at most one particle there is no pair, so nothing overlaps. */
  lemma SingleParticleNeverOverlaps(c: seq<real>, threshold: real)
    requires NumParticles(c) <= 1
    ensures !HasClosePair(c, threshold)
  {
  }

  /** Two particles exactly sigma apart do not overlap: the comparison is strict. */
  lemma ExactSigmaIsNoOverlap(x0: real, y0: real, x1: real, y1: real, sigma: real)
    requires Sq(x0 - x1) + Sq(y0 - y1) == sigma * sigma
    ensures !HasClosePair([x0, y0, x1, y1], sigma * sigma)
  {
    var c := [x0, y0, x1, y1];
    assert NumParticles(c) == 2;
    assert SqDist(c, 0, 1) == sigma * sigma;
  }

  /** The worked example: (0,0), (1,0), (1,1), (1/2,1/2) overlap for sigma = 1. */
  lemma WorkedExampleOverlaps()
    ensures HasClosePair([0.0, 0.0, 1.0, 0.0, 1.0, 1.0, 0.5, 0.5], 1.0 * 1.0)
  {
    var c := [0.0, 0.0, 1.0, 0.0, 1.0, 1.0, 0.5, 0.5];
    assert SqDist(c, 0, 3) == 0.5;
  }

  /** A trailing odd coordinate is ignored. */
  lemma TrailingCoordinateIgnored(c: seq<real>, z: real, threshold: real)
    requires |c| % 2 == 0
    ensures HasClosePair(c + [z], threshold) <==> HasClosePair(c, threshold)
  {
    var d := c + [z];
    assert NumParticles(d) == NumParticles(c);
    forall i, j | 0 <= i < NumParticles(c) && 0 <= j < NumParticles(c)
      ensures SqDist(d, i, j) == SqDist(c, i, j)
    {
      assert d[2 * i] == c[2 * i] && d[2 * i + 1] == c[2 * i + 1];
      assert d[2 * j] == c[2 * j] && d[2 * j + 1] == c[2 * j + 1];
    }
  }

  /** Moving a particle onto another one makes the configuration overlap. */
  lemma CoincidentParticlesOverlap(c: seq<real>, k: int, m: int, threshold: real)
    requires 0 <= k < NumParticles(c) && 0 <= m < NumParticles(c) && k != m
    requires threshold > 0.0
    ensures HasClosePair(c[2 * k := c[2 * m]][2 * k + 1 := c[2 * m + 1]], threshold)
  {
    var d := c[2 * k := c[2 * m]][2 * k + 1 := c[2 * m + 1]];
    assert NumParticles(d) == NumParticles(c);
    if k < m {
      assert SqDist(d, k, m) == 0.0;
    } else {
      assert SqDist(d, m, k) == 0.0;
    }
  }
}
