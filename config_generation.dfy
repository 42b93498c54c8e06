/**
 * Initial configurations of generate_config/config_generation.py: rejection
 * placement of N random particles with an overlap check after each, and a
 * square-lattice placement. Draws of `random.random()` are an explicit stream
 * in [0, 1), four per candidate point.
 */
module ConfigGeneration {
  import opened Wrappers
  import opened Numerics
  import opened Overlap

  /** generate_random's default overlap threshold (compared with the squared distance as sigma^2). */
  const DefaultOverlapSigma: real := 0.5

  datatype GenError =
    | DrawsExhausted  // the finite draw stream ran out before every particle was placed
    | NegativeCount   // np.zeros with a negative size raises ValueError

  /** N = int(L*L*rho): truncation toward zero. */
  function ParticleCount(rho: real, L: real): (n: int)
    ensures n >= 0 <==> L * L * rho > -1.0
  {
    TruncToInt(L * L * rho)
  }

  /** Every entry lies in [0, L). */
  predicate InHalfOpenBox(c: seq<real>, L: real)
  {
    forall i :: 0 <= i < |c| ==> 0.0 <= c[i] < L
  }

  /**
   * get_par_rand: its loop draws two values per dimension and keeps only the
   * last pair, so four draws are consumed and the last two give the point.
   */
  method GetParRand(L: real, draws: seq<real>) returns (x: real, y: real)
    requires |draws| == 4
    ensures x == draws[2] * L && y == draws[3] * L
  {
    x, y := 0.0, 0.0;
    for d := 0 to 2
      invariant d == 1 ==> x == draws[0] * L && y == draws[1] * L
      invariant d == 2 ==> x == draws[2] * L && y == draws[3] * L
    {
      x := draws[2 * d] * L;
      y := draws[2 * d + 1] * L;
    }
  }

  /** The candidate point made from the four draws starting at `at`: the last two, scaled by L. */
  function Point(L: real, draws: seq<real>, at: nat): (p: seq<real>)
    requires at + 4 <= |draws|
    ensures |p| == 2
  {
    [draws[at + 2] * L, draws[at + 3] * L]
  }

  /** A point drawn from samples of `random.random()` lies in [0, L) x [0, L). */
  lemma PointInBox(L: real, draws: seq<real>, at: nat)
    requires at + 4 <= |draws| && L > 0.0 && UnitDraws(draws)
    ensures InHalfOpenBox(Point(L, draws, at), L)
  {
    UnitScale(draws[at + 2], L);
    UnitScale(draws[at + 3], L);
  }

  /**
   * The start of the first group of four draws, from `at` on, whose point
   * added to `prefix` leaves no pair closer than sigma.
   */
  function FirstFreePoint(prefix: seq<real>, L: real, draws: seq<real>, at: nat, sigma: real): (r: Option<nat>)
    ensures r.Some? ==> at <= r.value && r.value + 4 <= |draws|
    decreases |draws| - at
  {
    if at + 4 > |draws| then None
    else if !HasClosePair(prefix + Point(L, draws, at), sigma * sigma) then Some(at)
    else FirstFreePoint(prefix, L, draws, at + 4, sigma)
  }

  /** The chosen group is free, and it is the first: every earlier group from `at` on overlaps. */
  lemma {:induction false} FirstFreePointIsFirst(prefix: seq<real>, L: real, draws: seq<real>, at: nat, sigma: real)
    requires FirstFreePoint(prefix, L, draws, at, sigma).Some?
    ensures
      var a := FirstFreePoint(prefix, L, draws, at, sigma).value;
      && (a - at) % 4 == 0
      && !HasClosePair(prefix + Point(L, draws, a), sigma * sigma)
      && forall b :: at <= b < a && (b - at) % 4 == 0 ==> HasClosePair(prefix + Point(L, draws, b), sigma * sigma)
    decreases |draws| - at
  {
    if HasClosePair(prefix + Point(L, draws, at), sigma * sigma) {
      FirstFreePointIsFirst(prefix, L, draws, at + 4, sigma);
      var a := FirstFreePoint(prefix, L, draws, at, sigma).value;
      assert a == FirstFreePoint(prefix, L, draws, at + 4, sigma).value;
      ResidueShift(a - (at + 4));
      forall b | at <= b < a && (b - at) % 4 == 0
        ensures HasClosePair(prefix + Point(L, draws, b), sigma * sigma)
      {
        if b != at {
          ResidueShift(b - (at + 4));
        }
      }
    }
  }

  /** Moving four draws on keeps the position within a group of four. */
  lemma ResidueShift(x: int)
    ensures (x + 4) % 4 == x % 4
  {
  }

  /** No group is found only when every remaining complete group overlaps. */
  lemma {:induction false} NoFreePointAllOverlap(prefix: seq<real>, L: real, draws: seq<real>, at: nat, sigma: real)
    requires FirstFreePoint(prefix, L, draws, at, sigma).None?
    ensures forall b :: at <= b && b + 4 <= |draws| && (b - at) % 4 == 0 ==> HasClosePair(prefix + Point(L, draws, b), sigma * sigma)
    decreases |draws| - at
  {
    if at + 4 <= |draws| {
      NoFreePointAllOverlap(prefix, L, draws, at + 4, sigma);
    }
  }

  /** Place `count` more particles one after another, each at its first free point. */
  function PlaceParticles(count: nat, position: seq<real>, L: real, draws: seq<real>, at: nat, sigma: real)
    : Result<seq<real>, GenError>
    decreases count
  {
    if count == 0 then Ok(position)
    else match FirstFreePoint(position, L, draws, at, sigma)
      case None => Err(DrawsExhausted)
      case Some(a) => PlaceParticles(count - 1, position + Point(L, draws, a), L, draws, a + 4, sigma)
  }

  /** generate_random: N = int(L*L*rho) particles, none when N is negative (an empty range). */
  function GenerateRandomSpec(rho: real, L: real, draws: seq<real>, sigma: real): Result<seq<real>, GenError>
  {
    var n := ParticleCount(rho, L);
    PlaceParticles(if n < 0 then 0 else n, [], L, draws, 0, sigma)
  }

  /**
   * Placement appends: the particles already placed are never moved, each
   * new particle keeps the configuration overlap-free, and every coordinate
   * stays in the box.
   */
  lemma {:induction false} PlaceParticlesSound(count: nat, position: seq<real>, L: real, draws: seq<real>, at: nat, sigma: real)
    requires |position| % 2 == 0 && !HasClosePair(position, sigma * sigma)
    requires PlaceParticles(count, position, L, draws, at, sigma).Ok?
    ensures
      var r := PlaceParticles(count, position, L, draws, at, sigma).value;
      && |r| == |position| + 2 * count
      && r[..|position|] == position
      && !HasClosePair(r, sigma * sigma)
      && (L > 0.0 && UnitDraws(draws) && InHalfOpenBox(position, L) ==> InHalfOpenBox(r, L))
    decreases count
  {
    if count > 0 {
      FirstFreePointIsFirst(position, L, draws, at, sigma);
      var a := FirstFreePoint(position, L, draws, at, sigma).value;
      var next := position + Point(L, draws, a);
      if L > 0.0 && UnitDraws(draws) {
        PointInBox(L, draws, a);
      }
      PlaceParticlesSound(count - 1, next, L, draws, a + 4, sigma);
      var r := PlaceParticles(count, position, L, draws, at, sigma).value;
      assert r[..|next|] == next;
      assert r[..|position|] == r[..|next|][..|position|];
    }
  }

  /**
   * generate_random returns 2*N coordinates, no pair closer than the
   * overlap threshold, every coordinate in [0, L).
   */
  lemma GenerateRandomOutcome(rho: real, L: real, draws: seq<real>, sigma: real)
    requires GenerateRandomSpec(rho, L, draws, sigma).Ok?
    ensures
      var r := GenerateRandomSpec(rho, L, draws, sigma).value;
      var n := ParticleCount(rho, L);
      && |r| == 2 * (if n < 0 then 0 else n)
      && !HasClosePair(r, sigma * sigma)
      && (L > 0.0 && UnitDraws(draws) ==> InHalfOpenBox(r, L))
  {
    var n := ParticleCount(rho, L);
    assert !HasClosePair([], sigma * sigma);
    PlaceParticlesSound(if n < 0 then 0 else n, [], L, draws, 0, sigma);
  }

  /**
   * At generate_random's default threshold 0.5 the placed particles are
   * pairwise at least 0.5 apart (squared distance at least 0.25).
   */
  lemma DefaultThresholdSeparation(rho: real, L: real, draws: seq<real>)
    requires GenerateRandomSpec(rho, L, draws, DefaultOverlapSigma).Ok?
    ensures
      var r := GenerateRandomSpec(rho, L, draws, DefaultOverlapSigma).value;
      forall i, j :: 0 <= i < j < NumParticles(r) ==> SqDist(r, i, j) >= 0.25
  {
    GenerateRandomOutcome(rho, L, draws, DefaultOverlapSigma);
  }

  /** get_par_rand on the group of four draws starting at `at`. */
  method DrawPoint(L: real, draws: seq<real>, at: nat) returns (x: real, y: real)
    requires at + 4 <= |draws|
    ensures [x, y] == Point(L, draws, at)
  {
    x, y := GetParRand(L, draws[at..at + 4]);
    assert draws[at..at + 4][2] == draws[at + 2] && draws[at..at + 4][3] == draws[at + 3];
    assert x == draws[at + 2] * L && y == draws[at + 3] * L;
  }

  /** Writing the two last coordinates in place replaces the last point. */
  lemma OverwriteLastPoint(prefix: seq<real>, position: seq<real>, x: real, y: real)
    requires |position| == |prefix| + 2 && position[..|prefix|] == prefix
    ensures position[|prefix| := x][|prefix| + 1 := y] == prefix + [x, y]
  {
  }

  /**
   * One particle of generate_random: a point appended, then redrawn in place
   * (only the two new entries are overwritten) while overlap_judge reports an
   * overlap.
   */
  method PlaceOne(prefix: seq<real>, L: real, draws: seq<real>, at: nat, sigma: real)
    returns (found: bool, position: seq<real>, next: nat)
    ensures found <==> FirstFreePoint(prefix, L, draws, at, sigma).Some?
    ensures found ==> next == FirstFreePoint(prefix, L, draws, at, sigma).value + 4
    ensures found ==> next <= |draws| && position == prefix + Point(L, draws, next - 4)
  {
    if at + 4 > |draws| {
      return false, prefix, at;
    }
    var x, y := DrawPoint(L, draws, at);
    position := prefix + [x, y];
    next := at + 4;
    var overlap := OverlapJudge(position, sigma);
    while overlap
      invariant 4 <= next <= |draws|
      invariant position == prefix + Point(L, draws, next - 4)
      invariant overlap <==> HasClosePair(position, sigma * sigma)
      invariant FirstFreePoint(prefix, L, draws, at, sigma) == FirstFreePoint(prefix, L, draws, next - 4, sigma)
      decreases |draws| - next
    {
      if next + 4 > |draws| {
        return false, position, next;
      }
      x, y := DrawPoint(L, draws, next);
      OverwriteLastPoint(prefix, position, x, y);
      position := position[|prefix| := x][|prefix| + 1 := y];
      next := next + 4;
      overlap := OverlapJudge(position, sigma);
    }
    found := true;
  }

  /** generate_random: place the particles one by one with the overlap check at the given sigma. */
  method GenerateRandom(rho: real, L: real, draws: seq<real>, sigma: real) returns (r: Result<seq<real>, GenError>)
    ensures r == GenerateRandomSpec(rho, L, draws, sigma)
  {
    var n := ParticleCount(rho, L);
    var count := if n < 0 then 0 else n;
    var position: seq<real> := [];
    var next: nat := 0;
    for parI := 0 to count
      invariant PlaceParticles(count - parI, position, L, draws, next, sigma) == GenerateRandomSpec(rho, L, draws, sigma)
    {
      var found, placed, after := PlaceOne(position, L, draws, next, sigma);
      if !found {
        return Err(DrawsExhausted);
      }
      position, next := placed, after;
    }
    return Ok(position);
  }

  /** N_root = int(sqrt(N)) + 1: the side of the smallest square grid holding all N sites. */
  function LatticeRoot(n: nat): (r: nat)
    ensures r > 0 && n < r * r && (r - 1) * (r - 1) <= n
  {
    IntSqrt(n) + 1
  }

  /** Particle k sits at grid column k div nRoot and row k mod nRoot, spaced by `interval`. */
  predicate IsLattice(position: seq<real>, n: nat, nRoot: nat, interval: real)
    requires nRoot > 0
  {
    && |position| == 2 * n
    && forall k :: 0 <= k < n ==>
         && position[2 * k] == (k / nRoot) as real * interval
         && position[2 * k + 1] == (k % nRoot) as real * interval
  }

  /**
   * generate_lattice: N = int(L*L*rho) sites on a grid of side
   * N_root = int(sqrt(N)) + 1; a negative N makes the zeroed buffer fail.
   */
  method GenerateLattice(rho: real, L: real, interval: real) returns (r: Result<seq<real>, GenError>)
    ensures r.Err? <==> ParticleCount(rho, L) < 0
    ensures r.Err? ==> r.error == NegativeCount
    ensures r.Ok? ==> IsLattice(r.value, ParticleCount(rho, L), LatticeRoot(ParticleCount(rho, L)), interval)
  {
    var n := ParticleCount(rho, L);
    if n < 0 {
      return Err(NegativeCount);
    }
    var position := FillLattice(n, IntSqrt(n) + 1, interval);
    return Ok(position);
  }

  /**
   * The counter loop of generate_lattice over a zeroed buffer of 2N entries.
   * The y entry is computed through float division, (2k+1-1)/2 = k exactly,
   * so its `% N_root` is k mod N_root.
   */
  method FillLattice(n: nat, nRoot: nat, interval: real) returns (r: seq<real>)
    requires nRoot > 0
    ensures IsLattice(r, n, nRoot, interval)
  {
    var position := new real[2 * n](_ => 0.0);
    var count := 0;
    while count < n
      invariant 0 <= count <= n
      invariant LatticeUpTo(position[..], count, nRoot, interval)
    {
      var xIndex := 2 * count;
      var yIndex := xIndex + 1;
      ghost var before := position[..];
      var column := (xIndex / 2) / nRoot;
      var row := ((yIndex - 1) / 2) % nRoot;
      position[xIndex] := column as real * interval;
      position[yIndex] := row as real * interval;
      assert position[..] == before[xIndex := column as real * interval][yIndex := row as real * interval];
      LatticeStep(before, count, nRoot, interval, column, row);
      count := count + 1;
    }
    r := position[..];
    LatticeUpToIsLattice(r, n, nRoot, interval);
  }

  /** Entry i of the lattice buffer: column or row of particle i div 2, times the spacing. */
  function LatticeCoordinate(i: nat, nRoot: nat, interval: real): real
    requires nRoot > 0
  {
    if i % 2 == 0 then ((i / 2) / nRoot) as real * interval else ((i / 2) % nRoot) as real * interval
  }

  /** The first `count` particles of the buffer are on their lattice sites. */
  predicate LatticeUpTo(p: seq<real>, count: nat, nRoot: nat, interval: real)
    requires nRoot > 0
  {
    2 * count <= |p| && forall i :: 0 <= i < 2 * count ==> p[i] == LatticeCoordinate(i, nRoot, interval)
  }

  /** One pass of the counter loop puts particle `count` on its site and keeps the earlier ones. */
  lemma LatticeStep(p: seq<real>, count: nat, nRoot: nat, interval: real, column: int, row: int)
    requires nRoot > 0 && LatticeUpTo(p, count, nRoot, interval) && 2 * count + 2 <= |p|
    requires column == ((2 * count) / 2) / nRoot && row == ((2 * count + 1 - 1) / 2) % nRoot
    ensures LatticeUpTo(p[2 * count := column as real * interval][2 * count + 1 := row as real * interval], count + 1, nRoot, interval)
  {
    var q := p[2 * count := column as real * interval][2 * count + 1 := row as real * interval];
    assert (2 * count) / 2 == count && (2 * count + 1) / 2 == count;
    assert q[2 * count] == LatticeCoordinate(2 * count, nRoot, interval);
    assert q[2 * count + 1] == LatticeCoordinate(2 * count + 1, nRoot, interval);
  }

  lemma LatticeUpToIsLattice(r: seq<real>, n: nat, nRoot: nat, interval: real)
    requires nRoot > 0 && |r| == 2 * n && LatticeUpTo(r, n, nRoot, interval)
    ensures IsLattice(r, n, nRoot, interval)
  {
    forall k | 0 <= k < n
      ensures r[2 * k] == (k / nRoot) as real * interval && r[2 * k + 1] == (k % nRoot) as real * interval
    {
      assert (2 * k) / 2 == k && (2 * k + 1) / 2 == k;
      assert r[2 * k] == LatticeCoordinate(2 * k, nRoot, interval);
      assert r[2 * k + 1] == LatticeCoordinate(2 * k + 1, nRoot, interval);
    }
  }

  /** Distinct particles get distinct grid cells. */
  lemma GridCellsDistinct(j: nat, k: nat, nRoot: nat)
    requires nRoot > 0 && j != k
    ensures j / nRoot != k / nRoot || j % nRoot != k % nRoot
  {
    assert j == nRoot * (j / nRoot) + j % nRoot;
    assert k == nRoot * (k / nRoot) + k % nRoot;
  }

  /** Two grid coordinates that differ are at least one interval apart. */
  lemma DistinctGridCoordinatesApart(a: int, b: int, interval: real)
    requires a != b
    ensures Sq(a as real * interval - b as real * interval) >= interval * interval
  {
    var t := (a - b) as real;
    assert a as real * interval - b as real * interval == t * interval;
    assert t * t >= 1.0 by {
      if t >= 1.0 {
        MulAtLeastOne(t, t);
      } else {
        assert -t >= 1.0;
        MulAtLeastOne(-t, -t);
      }
    }
    assert Sq(t * interval) == (t * t) * (interval * interval);
    MulAtLeastOne'(t * t, interval * interval);
  }

  lemma MulAtLeastOne(a: real, b: real)
    requires a >= 1.0 && b >= 1.0
    ensures a * b >= 1.0
  {
    assert a * b >= a * 1.0;
  }

  lemma MulAtLeastOne'(s: real, q: real)
    requires s >= 1.0 && q >= 0.0
    ensures s * q >= q
  {
    assert s * q - q == (s - 1.0) * q;
  }

  /**
   * With a positive spacing no two lattice particles are closer than one
   * interval, so none coincide and the lattice passes the overlap check at
   * any sigma up to the interval.
   */
  lemma {:induction false} LatticeOverlapFree(position: seq<real>, n: nat, nRoot: nat, interval: real)
    requires nRoot > 0 && IsLattice(position, n, nRoot, interval)
    ensures forall j, k :: 0 <= j < k < n ==> SqDist(position, j, k) >= interval * interval
    ensures !HasClosePair(position, interval * interval)
  {
    forall j, k | 0 <= j < k < n
      ensures SqDist(position, j, k) >= interval * interval
    {
      GridCellsDistinct(j, k, nRoot);
      if j / nRoot != k / nRoot {
        DistinctGridCoordinatesApart(j / nRoot, k / nRoot, interval);
      } else {
        DistinctGridCoordinatesApart(j % nRoot, k % nRoot, interval);
      }
    }
  }

  /** The column index k div N_root stays below N_root while k < N_root^2. */
  lemma ColumnBound(k: nat, nRoot: nat)
    requires nRoot > 0 && k < nRoot * nRoot
    ensures k / nRoot < nRoot
  {
    assert k == nRoot * (k / nRoot) + k % nRoot;
  }

  lemma ScaleMonotone(a: real, b: real, m: real)
    requires a <= b && m >= 0.0
    ensures a * m <= b * m
  {
    assert b * m - a * m == (b - a) * m;
  }

  /** A grid index below N_root, times the spacing, lies in [0, L]. */
  lemma CellInBox(cell: nat, nRoot: nat, interval: real, L: real)
    requires cell < nRoot && interval >= 0.0 && (nRoot - 1) as real * interval <= L
    ensures 0.0 <= cell as real * interval <= L
  {
    ScaleMonotone(0.0, cell as real, interval);
    ScaleMonotone(cell as real, (nRoot - 1) as real, interval);
  }

  /** Both coordinates of lattice particle k lie in [0, L]. */
  lemma LatticeSiteInBox(position: seq<real>, n: nat, nRoot: nat, interval: real, L: real, k: nat)
    requires nRoot > 0 && IsLattice(position, n, nRoot, interval) && n <= nRoot * nRoot
    requires interval >= 0.0 && (nRoot - 1) as real * interval <= L
    requires k < n
    ensures 0.0 <= position[2 * k] <= L && 0.0 <= position[2 * k + 1] <= L
  {
    ColumnBound(k, nRoot);
    CellInBox(k / nRoot, nRoot, interval, L);
    CellInBox(k % nRoot, nRoot, interval, L);
  }

  /** Every lattice coordinate is at most N_root - 1 intervals from the origin. */
  lemma {:induction false} LatticeInBox(position: seq<real>, n: nat, nRoot: nat, interval: real, L: real)
    requires nRoot > 0 && IsLattice(position, n, nRoot, interval) && n <= nRoot * nRoot
    requires interval >= 0.0 && (nRoot - 1) as real * interval <= L
    ensures forall i :: 0 <= i < |position| ==> 0.0 <= position[i] <= L
  {
    forall i | 0 <= i < |position|
      ensures 0.0 <= position[i] <= L
    {
      LatticeSiteInBox(position, n, nRoot, interval, L, i / 2);
    }
  }

  /** Between non-negative reals, squaring keeps the order. */
  lemma SquareOrder(a: real, b: real)
    requires a >= 0.0 && b >= 0.0 && a * a <= b * b
    ensures a <= b
  {
    if a > b {
      calc {
        b * b;
        <= { ScaleMonotone(b, a, b); }
        a * b;
        < { StrictScale(b, a, a); }
        a * a;
      }
    }
  }

  lemma StrictScale(a: real, b: real, m: real)
    requires a < b && m > 0.0
    ensures a * m < b * m
  {
    assert b * m - a * m == (b - a) * m;
  }

  /**
   * The spacing interval = L / sqrt(N), given by its defining property
   * interval >= 0 and interval^2 * N = L^2, fits N_root - 1 = int(sqrt(N))
   * steps into [0, L].
   */
  lemma LatticeSpacingFits(n: nat, interval: real, L: real)
    requires n > 0 && interval >= 0.0 && L >= 0.0 && interval * interval * (n as real) == L * L
    ensures (LatticeRoot(n) - 1) as real * interval <= L
  {
    var s: nat := LatticeRoot(n) - 1;
    var a := s as real * interval;
    assert (s as real) * (s as real) == (s * s) as real;
    ScaleMonotone((s as real) * (s as real), n as real, interval * interval);
    assert a * a == (s as real) * (s as real) * (interval * interval);
    ScaleMonotone(0.0, s as real, interval);
    SquareOrder(a, L);
  }

  /**
   * The lattice generate_lattice builds, with its spacing L / sqrt(N), lies
   * in [0, L]; with no particles there is nothing to place.
   */
  lemma GeneratedLatticeInBox(position: seq<real>, n: nat, interval: real, L: real)
    requires IsLattice(position, n, LatticeRoot(n), interval)
    requires interval >= 0.0 && L >= 0.0 && (n > 0 ==> interval * interval * (n as real) == L * L)
    ensures forall i :: 0 <= i < |position| ==> 0.0 <= position[i] <= L
  {
    if n > 0 {
      LatticeSpacingFits(n, interval, L);
    } else {
      assert (LatticeRoot(n) - 1) as real * interval == 0.0;
    }
    LatticeInBox(position, n, LatticeRoot(n), interval, L);
  }
}
