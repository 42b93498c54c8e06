/**
 * The velocity-Verlet integrator with Andersen thermostat of
 * md_support/md_toolkit.py.
 *
 * `motion_integrate` is split into its two stages (func_mode 1 and 2), each
 * a method that fills fresh buffers in loops and is proved against a
 * specification function; `md_move` composes the specification functions.
 * The thermostat's draws are explicit: u[i] is the uniform draw tested for
 * component i and g[i] the Gaussian sample (standard deviation
 * sqrt(temperature)) that replaces it when the test fires.
 */
module MdToolkit {
  import opened Wrappers
  import opened Numerics
  import opened PairPotential
  import opened Overlap
  import McMove

  /** motion_integrate's default overlap threshold, compared with the squared distance. */
  const DefaultSigma: real := 1.0

  /** A stage-1 step that produced an overlap is redone with dt divided by this. */
  const ShrinkFactor: real := 1000.0

  datatype Phase = Phase(config: seq<real>, velocity: seq<real>)

  datatype MdError =
    | RecursionLimit  // the shrink-and-retry recursion exceeded its depth budget

  /** The all-zero buffer `np.zeros_like`. */
  function Zeros(n: nat): (r: seq<real>)
    ensures |r| == n && forall i :: 0 <= i < n ==> r[i] == 0.0
  {
    seq(n, _ => 0.0)
  }

  /** Velocities, forces and draws cover every coordinate of every particle. */
  predicate Covers(c: seq<real>, b: seq<real>)
  {
    |b| >= 2 * NumParticles(c)
  }

  /** Every particle coordinate lies in [0, L]. */
  predicate InBox(c: seq<real>, L: real)
  {
    forall i :: 0 <= i < 2 * NumParticles(c) ==> 0.0 <= c[i] <= L
  }

  /**
   * Stage-1 boundary handling: above L it wraps (periodic) or reflects to
   * L - (x mod L) (hard walls); below 0 it wraps by floor-modulo in BOTH
   * modes, unlike the Monte Carlo mover, which reflects there.
   */
  function Fold(x: real, L: real, mode: BoundaryMode): (r: real)
    requires L > 0.0
    ensures 0.0 <= r <= L
    ensures 0.0 <= x <= L ==> r == x
    ensures x < 0.0 ==> r < L
    ensures L < x && mode == Periodic ==> r < L
    ensures L < x && mode == Hard ==> 0.0 < r
  {
    if x > L then
      match mode
      case Periodic => PyMod(x, L)
      case Hard => L - PyMod(x, L)
    else if x < 0.0 then PyMod(x, L)
    else x
  }

  /** The two boundary routines disagree under hard walls below 0: wrap here, reflect there. */
  lemma HardWallBelowZeroWraps(L: real, eps: real)
    requires L > 0.0 && 0.0 < eps < L
    ensures Fold(-eps, L, Hard) == L - eps
    ensures McMove.Fold(-eps, L, Hard) == eps
  {
    PyModUnique(-eps, L, -1, L - eps);
  }

  /** Position update x + dt*v + dt^2*f/2. */
  function Drift(x: real, v: real, f: real, dt: real): real
  {
    x + dt * v + dt * dt * f / 2.0
  }

  /** Half kick v + dt*f/2. */
  function Kick(v: real, f: real, dt: real): real
  {
    v + dt * f / 2.0
  }

  /**
   * Stage-1 positions: every particle coordinate drifted and folded into the
   * box; a trailing odd entry stays 0 as in the zeroed output buffer.
   */
  function Stage1Positions(c: seq<real>, v: seq<real>, f: seq<real>, dt: real, L: real, mode: BoundaryMode): (r: seq<real>)
    requires L > 0.0 && Covers(c, v) && Covers(c, f)
    ensures |r| == |c| && InBox(r, L)
    ensures forall i :: 2 * NumParticles(c) <= i < |c| ==> r[i] == 0.0
  {
    seq(|c|, i requires 0 <= i < |c| =>
      if i < 2 * NumParticles(c) then Fold(Drift(c[i], v[i], f[i], dt), L, mode) else 0.0)
  }

  /** Stage-1 velocities: every particle component half-kicked. */
  function Stage1Velocities(c: seq<real>, v: seq<real>, f: seq<real>, dt: real): (r: seq<real>)
    requires Covers(c, v) && Covers(c, f)
    ensures |r| == |c|
  {
    seq(|c|, i requires 0 <= i < |c| =>
      if i < 2 * NumParticles(c) then Kick(v[i], f[i], dt) else 0.0)
  }

  /**
   * Stage 1 (func_mode 1): the update, then a scan of all pairs for a squared
   * distance below sigma; on overlap the whole stage is redone from the
   * original buffers with dt / 1000, at most `depth` times.
   */
  function Stage1Spec(c: seq<real>, v: seq<real>, f: seq<real>, dt: real, L: real, mode: BoundaryMode,
                      sigma: real, depth: nat): (r: Result<Phase, MdError>)
    requires L > 0.0 && Covers(c, v) && Covers(c, f)
    ensures r.Ok? ==>
      && |r.value.config| == |c| && |r.value.velocity| == |c|
      && InBox(r.value.config, L)
      && !HasClosePair(r.value.config, sigma)
    decreases depth
  {
    var config := Stage1Positions(c, v, f, dt, L, mode);
    if !HasClosePair(config, sigma) then Ok(Phase(config, Stage1Velocities(c, v, f, dt)))
    else if depth == 0 then Err(RecursionLimit)
    else Stage1Spec(c, v, f, dt / ShrinkFactor, L, mode, sigma, depth - 1)
  }

  /** The step after m retries: dt / 1000^m. */
  function ShrunkStep(dt: real, m: nat): real
    decreases m
  {
    if m == 0 then dt else ShrunkStep(dt / ShrinkFactor, m - 1)
  }

  /**
   * Shrink-and-retry is a full re-step, not a partial correction: whatever
   * stage 1 returns is the update of the ORIGINAL buffers with dt / 1000^m for
   * some number of retries m within the depth budget.
   */
  lemma {:induction false} Stage1RestartsFromOriginal(c: seq<real>, v: seq<real>, f: seq<real>, dt: real, L: real,
                                                      mode: BoundaryMode, sigma: real, depth: nat)
    requires L > 0.0 && Covers(c, v) && Covers(c, f)
    requires Stage1Spec(c, v, f, dt, L, mode, sigma, depth).Ok?
    ensures exists m: nat :: (m <= depth &&
      Stage1Spec(c, v, f, dt, L, mode, sigma, depth).value
        == Phase(Stage1Positions(c, v, f, ShrunkStep(dt, m), L, mode), Stage1Velocities(c, v, f, ShrunkStep(dt, m))))
    decreases depth
  {
    if HasClosePair(Stage1Positions(c, v, f, dt, L, mode), sigma) {
      Stage1RestartsFromOriginal(c, v, f, dt / ShrinkFactor, L, mode, sigma, depth - 1);
      var m: nat :| m <= depth - 1 &&
        Stage1Spec(c, v, f, dt / ShrinkFactor, L, mode, sigma, depth - 1).value
          == Phase(Stage1Positions(c, v, f, ShrunkStep(dt / ShrinkFactor, m), L, mode),
                   Stage1Velocities(c, v, f, ShrunkStep(dt / ShrinkFactor, m)));
      assert ShrunkStep(dt, m + 1) == ShrunkStep(dt / ShrinkFactor, m);
    } else {
      assert ShrunkStep(dt, 0) == dt;
    }
  }

  /**
   * Stage 1 as the source writes the retry: the recursive call omits `sigma`,
   * so every retry scans against the default 1.0 instead of the caller's value.
   */
  function Stage1AsWritten(c: seq<real>, v: seq<real>, f: seq<real>, dt: real, L: real, mode: BoundaryMode,
                           sigma: real, depth: nat): (r: Result<Phase, MdError>)
    requires L > 0.0 && Covers(c, v) && Covers(c, f)
    ensures r.Ok? ==> |r.value.config| == |c| && |r.value.velocity| == |c| && InBox(r.value.config, L)
    ensures r.Ok? ==> !HasClosePair(r.value.config, sigma) || !HasClosePair(r.value.config, DefaultSigma)
    decreases depth
  {
    var config := Stage1Positions(c, v, f, dt, L, mode);
    if !HasClosePair(config, sigma) then Ok(Phase(config, Stage1Velocities(c, v, f, dt)))
    else if depth == 0 then Err(RecursionLimit)
    else Stage1AsWritten(c, v, f, dt / ShrinkFactor, L, mode, DefaultSigma, depth - 1)
  }

  /**
   * With sigma = 2 the as-written stage 1 returns a configuration whose pair
   * is closer than the caller's threshold: the first scan rejects it, the
   * retry accepts it against 1.0.
   */
  lemma RetryDropsSigma()
    ensures
      var c := [1.0, 1.0, 2.0, 1.0];
      var z := [0.0, 0.0, 0.0, 0.0];
      && Stage1AsWritten(c, z, z, 1.0, 10.0, Hard, 2.0, 1) == Ok(Phase(c, z))
      && HasClosePair(c, 2.0)
  {
    var c := [1.0, 1.0, 2.0, 1.0];
    var z := [0.0, 0.0, 0.0, 0.0];
    StillParticlesStay(c, z, 1.0, 10.0);
    StillParticlesStay(c, z, 1.0 / ShrinkFactor, 10.0);
    assert Stage1Velocities(c, z, z, 1.0 / ShrinkFactor) == z;
    assert SqDist(c, 0, 1) == 1.0;
    assert !HasClosePair(c, DefaultSigma);
  }

  /** Particles at rest, without force and inside the box, stay where they are. */
  lemma StillParticlesStay(c: seq<real>, z: seq<real>, dt: real, L: real)
    requires |c| % 2 == 0 && |z| == |c| && L > 0.0
    requires forall i :: 0 <= i < |z| ==> z[i] == 0.0
    requires forall i :: 0 <= i < |c| ==> 0.0 <= c[i] <= L
    ensures Stage1Positions(c, z, z, dt, L, Hard) == c
  {
    var p := Stage1Positions(c, z, z, dt, L, Hard);
    forall i | 0 <= i < |c|
      ensures p[i] == c[i]
    {
      assert Drift(c[i], 0.0, 0.0, dt) == c[i];
    }
  }

  /** The as-written retry agrees with the corrected one at the default sigma, which md_move uses. */
  lemma {:induction false} AsWrittenAgreesAtDefaultSigma(c: seq<real>, v: seq<real>, f: seq<real>, dt: real, L: real,
                                                         mode: BoundaryMode, depth: nat)
    requires L > 0.0 && Covers(c, v) && Covers(c, f)
    ensures Stage1AsWritten(c, v, f, dt, L, mode, DefaultSigma, depth) == Stage1Spec(c, v, f, dt, L, mode, DefaultSigma, depth)
    decreases depth
  {
    if depth > 0 {
      AsWrittenAgreesAtDefaultSigma(c, v, f, dt / ShrinkFactor, L, mode, depth - 1);
    }
  }

  /**
   * One step of the as-written stage 1: either the first update is returned,
   * or the result is the corrected stage 1 at dt / 1000 and the default sigma.
   */
  lemma AsWrittenFirstStep(c: seq<real>, v: seq<real>, f: seq<real>, dt: real, L: real,
                           mode: BoundaryMode, sigma: real, depth: nat)
    requires L > 0.0 && Covers(c, v) && Covers(c, f)
    ensures
      var r := Stage1AsWritten(c, v, f, dt, L, mode, sigma, depth);
      || r == Ok(Phase(Stage1Positions(c, v, f, dt, L, mode), Stage1Velocities(c, v, f, dt)))
      || r == Err(RecursionLimit)
      || (depth > 0 && r == Stage1Spec(c, v, f, dt / ShrinkFactor, L, mode, DefaultSigma, depth - 1))
  {
    if depth > 0 {
      AsWrittenAgreesAtDefaultSigma(c, v, f, dt / ShrinkFactor, L, mode, depth - 1);
    }
  }

  /**
   * The as-written stage 1 is a full re-step as well: its retries run the
   * corrected stage 1 at the default sigma, which restarts from the original
   * buffers.
   */
  lemma AsWrittenRestartsFromOriginal(c: seq<real>, v: seq<real>, f: seq<real>, dt: real, L: real,
                                      mode: BoundaryMode, sigma: real, depth: nat)
    requires L > 0.0 && Covers(c, v) && Covers(c, f)
    requires Stage1AsWritten(c, v, f, dt, L, mode, sigma, depth).Ok?
    ensures exists m: nat :: (m <= depth &&
      Stage1AsWritten(c, v, f, dt, L, mode, sigma, depth).value
        == Phase(Stage1Positions(c, v, f, ShrunkStep(dt, m), L, mode), Stage1Velocities(c, v, f, ShrunkStep(dt, m))))
  {
    var r := Stage1AsWritten(c, v, f, dt, L, mode, sigma, depth);
    AsWrittenFirstStep(c, v, f, dt, L, mode, sigma, depth);
    if r == Ok(Phase(Stage1Positions(c, v, f, dt, L, mode), Stage1Velocities(c, v, f, dt))) {
      assert ShrunkStep(dt, 0) == dt;
    } else {
      var retry := Stage1Spec(c, v, f, dt / ShrinkFactor, L, mode, DefaultSigma, depth - 1);
      assert r == retry;
      Stage1RestartsFromOriginal(c, v, f, dt / ShrinkFactor, L, mode, DefaultSigma, depth - 1);
      var m: nat :| m <= depth - 1 &&
        retry.value == Phase(Stage1Positions(c, v, f, ShrunkStep(dt / ShrinkFactor, m), L, mode),
                             Stage1Velocities(c, v, f, ShrunkStep(dt / ShrinkFactor, m)));
      assert ShrunkStep(dt, m + 1) == ShrunkStep(dt / ShrinkFactor, m);
    }
  }

  /**
   * The update loop of stage 1: zeroed position and velocity buffers filled
   * particle by particle and dimension by dimension, each position folded
   * into the box.
   */
  method Stage1Update(c: seq<real>, v: seq<real>, f: seq<real>, dt: real, L: real, mode: BoundaryMode)
    returns (config: seq<real>, velocity: seq<real>)
    requires L > 0.0 && Covers(c, v) && Covers(c, f)
    ensures config == Stage1Positions(c, v, f, dt, L, mode)
    ensures velocity == Stage1Velocities(c, v, f, dt)
  {
    var particleCount := |c| / 2;
    var newConfig := new real[|c|](_ => 0.0);
    var newVelocity := new real[|c|](_ => 0.0);
    ghost var positions := Stage1Positions(c, v, f, dt, L, mode);
    ghost var velocities := Stage1Velocities(c, v, f, dt);
    for parI := 0 to particleCount
      invariant forall i :: 0 <= i < |c| ==> newConfig[i] == if i < 2 * parI then positions[i] else 0.0
      invariant forall i :: 0 <= i < |c| ==> newVelocity[i] == if i < 2 * parI then velocities[i] else 0.0
    {
      for d := 0 to 2
        invariant forall i :: 0 <= i < |c| ==> newConfig[i] == if i < 2 * parI + d then positions[i] else 0.0
        invariant forall i :: 0 <= i < |c| ==> newVelocity[i] == if i < 2 * parI + d then velocities[i] else 0.0
      {
        var idx := 2 * parI + d;
        newConfig[idx] := Fold(Drift(c[idx], v[idx], f[idx], dt), L, mode);
        newVelocity[idx] := Kick(v[idx], f[idx], dt);
      }
    }
    config := newConfig[..];
    velocity := newVelocity[..];
    assert config == positions;
    assert velocity == velocities;
  }

  /** The overlap scan of stage 1: every pair visited, no early exit. */
  method ScanAllPairs(config: seq<real>, sigma: real) returns (overlap: bool)
    ensures overlap <==> HasClosePair(config, sigma)
  {
    var particleCount := |config| / 2;
    overlap := false;
    for i := 0 to particleCount
      invariant overlap <==> CloseInRows(config, sigma, i)
    {
      for j := i + 1 to particleCount
        invariant overlap <==> CloseInRows(config, sigma, i) || CloseInRow(config, sigma, i, j)
      {
        var r2 := SquaredDistance(config, i, j);
        if r2 < sigma {
          overlap := true;
        }
      }
    }
  }

  /**
   * Stage 1 of motion_integrate: the update, the overlap scan and on overlap
   * the recursive redo from the original buffers with dt / 1000.
   */
  method Stage1(c: seq<real>, v: seq<real>, f: seq<real>, dt: real, L: real, mode: BoundaryMode,
                sigma: real, depth: nat) returns (r: Result<Phase, MdError>)
    requires L > 0.0 && Covers(c, v) && Covers(c, f)
    ensures r == Stage1Spec(c, v, f, dt, L, mode, sigma, depth)
    decreases depth
  {
    var config, velocity := Stage1Update(c, v, f, dt, L, mode);
    var overlap := ScanAllPairs(config, sigma);
    if overlap {
      if depth == 0 {
        return Err(RecursionLimit);
      }
      r := Stage1(c, v, f, dt / ShrinkFactor, L, mode, sigma, depth - 1);
    } else {
      r := Ok(Phase(config, velocity));
    }
  }

  /**
   * Stage 1 as motion_integrate runs it: the same update and scan, but the
   * recursive redo passes no sigma and so scans against the default 1.0.
   */
  method Stage1AsCoded(c: seq<real>, v: seq<real>, f: seq<real>, dt: real, L: real, mode: BoundaryMode,
                       sigma: real, depth: nat) returns (r: Result<Phase, MdError>)
    requires L > 0.0 && Covers(c, v) && Covers(c, f)
    ensures r == Stage1AsWritten(c, v, f, dt, L, mode, sigma, depth)
    decreases depth
  {
    var config, velocity := Stage1Update(c, v, f, dt, L, mode);
    var overlap := ScanAllPairs(config, sigma);
    if overlap {
      if depth == 0 {
        return Err(RecursionLimit);
      }
      r := Stage1AsCoded(c, v, f, dt / ShrinkFactor, L, mode, DefaultSigma, depth - 1);
    } else {
      r := Ok(Phase(config, velocity));
    }
  }

  /** The Andersen test: the component is replaced by the Gaussian sample when u < nu*dt. */
  function Thermostat(kicked: real, u: real, gauss: real, nu: real, dt: real): real
  {
    if u < nu * dt then gauss else kicked
  }

  /** The thermostat pass over a velocity buffer: every particle component tested, the rest kept. */
  function Resampled(w: seq<real>, c: seq<real>, nu: real, dt: real, u: seq<real>, g: seq<real>): (r: seq<real>)
    requires |w| == |c| && Covers(c, u) && Covers(c, g)
    ensures |r| == |c|
  {
    seq(|c|, i requires 0 <= i < |c| =>
      if i < 2 * NumParticles(c) then Thermostat(w[i], u[i], g[i], nu, dt) else w[i])
  }

  /** Stage-2 velocities: second half kick, then thermostat replacement per component. */
  function Stage2Velocities(c: seq<real>, v: seq<real>, f: seq<real>, dt: real, nu: real,
                            u: seq<real>, g: seq<real>): (r: seq<real>)
    requires Covers(c, v) && Covers(c, f) && Covers(c, u) && Covers(c, g)
    ensures |r| == |c|
  {
    Resampled(Stage1Velocities(c, v, f, dt), c, nu, dt, u, g)
  }

  /** With a non-positive rate nu*dt no draw in [0, 1) fires: stage 2 is the plain half kick. */
  lemma NoResamplingWithoutRate(c: seq<real>, v: seq<real>, f: seq<real>, dt: real, nu: real,
                                u: seq<real>, g: seq<real>, i: int)
    requires Covers(c, v) && Covers(c, f) && Covers(c, u) && Covers(c, g)
    requires nu * dt <= 0.0 && 0 <= i < 2 * NumParticles(c) && 0.0 <= u[i]
    ensures Stage2Velocities(c, v, f, dt, nu, u, g)[i] == Kick(v[i], f[i], dt)
  {
  }

  /**
   * A fired component is replaced outright: its new value is the Gaussian
   * sample, whatever the old velocity and force were.
   */
  lemma ResamplingReplacesOutright(c: seq<real>, v: seq<real>, f: seq<real>, v': seq<real>, f': seq<real>,
                                   dt: real, nu: real, u: seq<real>, g: seq<real>, i: int)
    requires Covers(c, v) && Covers(c, f) && Covers(c, v') && Covers(c, f') && Covers(c, u) && Covers(c, g)
    requires 0 <= i < 2 * NumParticles(c) && u[i] < nu * dt
    ensures Stage2Velocities(c, v, f, dt, nu, u, g)[i] == g[i] == Stage2Velocities(c, v', f', dt, nu, u, g)[i]
  {
  }

  /** The half-kick loop of stage 2, into a zeroed buffer. */
  method HalfKick(c: seq<real>, v: seq<real>, f: seq<real>, dt: real) returns (velocity: array<real>)
    requires Covers(c, v) && Covers(c, f)
    ensures fresh(velocity) && velocity[..] == Stage1Velocities(c, v, f, dt)
  {
    var particleCount := |c| / 2;
    velocity := new real[|c|](_ => 0.0);
    ghost var target := Stage1Velocities(c, v, f, dt);
    for parI := 0 to particleCount
      invariant forall i :: 0 <= i < |c| ==> velocity[i] == if i < 2 * parI then target[i] else 0.0
    {
      for d := 0 to 2
        invariant forall i :: 0 <= i < |c| ==> velocity[i] == if i < 2 * parI + d then target[i] else 0.0
      {
        var idx := 2 * parI + d;
        velocity[idx] := Kick(v[idx], f[idx], dt);
      }
    }
    assert velocity[..] == target;
  }

  /** The Andersen heat-bath loop: each particle component drawn against nu*dt in place. */
  method Resample(velocity: array<real>, c: seq<real>, nu: real, dt: real, u: seq<real>, g: seq<real>)
    requires velocity.Length == |c| && Covers(c, u) && Covers(c, g)
    modifies velocity
    ensures velocity[..] == Resampled(old(velocity[..]), c, nu, dt, u, g)
  {
    var particleCount := |c| / 2;
    ghost var target := Resampled(velocity[..], c, nu, dt, u, g);
    for parI := 0 to particleCount
      invariant forall i :: 0 <= i < |c| ==> velocity[i] == if i < 2 * parI then target[i] else old(velocity[i])
    {
      for d := 0 to 2
        invariant forall i :: 0 <= i < |c| ==> velocity[i] == if i < 2 * parI + d then target[i] else old(velocity[i])
      {
        var idx := 2 * parI + d;
        if u[idx] < nu * dt {
          velocity[idx] := g[idx];
        }
      }
    }
    assert velocity[..] == target;
  }

  /**
   * Stage 2 of motion_integrate: the half kick, then the thermostat pass.
   * The position buffer stays zero.
   */
  method Stage2(c: seq<real>, v: seq<real>, f: seq<real>, dt: real, nu: real, u: seq<real>, g: seq<real>)
    returns (newConfig: seq<real>, newVelocity: seq<real>)
    requires Covers(c, v) && Covers(c, f) && Covers(c, u) && Covers(c, g)
    ensures newConfig == Zeros(|c|)
    ensures newVelocity == Stage2Velocities(c, v, f, dt, nu, u, g)
  {
    var config := new real[|c|](_ => 0.0);
    var velocity := HalfKick(c, v, f, dt);
    Resample(velocity, c, nu, dt, u, g);
    newConfig := config[..];
    newVelocity := velocity[..];
    assert newConfig == Zeros(|c|);
  }

  /**
   * motion_integrate: func_mode 1 runs stage 1 with its retry as written,
   * func_mode 2 runs stage 2, and any other mode returns the two zeroed
   * buffers untouched.
   */
  method MotionIntegrate(c: seq<real>, v: seq<real>, f: seq<real>, dt: real, nu: real, mode: BoundaryMode, L: real,
                         funcMode: int, sigma: real, u: seq<real>, g: seq<real>, depth: nat)
    returns (r: Result<Phase, MdError>)
    requires L > 0.0 && Covers(c, v) && Covers(c, f)
    requires funcMode == 2 ==> Covers(c, u) && Covers(c, g)
    ensures funcMode == 1 ==> r == Stage1AsWritten(c, v, f, dt, L, mode, sigma, depth)
    ensures funcMode == 2 ==> r == Ok(Phase(Zeros(|c|), Stage2Velocities(c, v, f, dt, nu, u, g)))
    ensures funcMode != 1 && funcMode != 2 ==> r == Ok(Phase(Zeros(|c|), Zeros(|c|)))
  {
    if funcMode == 1 {
      r := Stage1AsCoded(c, v, f, dt, L, mode, sigma, depth);
    } else if funcMode == 2 {
      var config, velocity := Stage2(c, v, f, dt, nu, u, g);
      r := Ok(Phase(config, velocity));
    } else {
      r := Ok(Phase(Zeros(|c|), Zeros(|c|)));
    }
  }

  /**
   * md_move: stage 1 at the default sigma, the force at the new positions,
   * then stage 2 on the stage-1 velocities with that force. Its positions are
   * stage 1's; stage 2's zeroed position buffer is discarded. At the default
   * sigma the as-written retry scans against the caller's threshold.
   */
  function MdMove(c: seq<real>, v: seq<real>, f: seq<real>, mode: BoundaryMode, dt: real, L: real, nu: real,
                  pot: Potential, args: seq<real>, u: seq<real>, g: seq<real>, depth: nat)
    : (r: Result<(seq<real>, seq<real>, seq<real>), MdError>)
    requires L > 0.0 && Covers(c, v) && Covers(c, f) && Covers(c, u) && Covers(c, g) && ForceShaped(pot)
    ensures r.Ok? <==> Stage1AsWritten(c, v, f, dt, L, mode, DefaultSigma, depth).Ok?
    ensures r.Ok? ==>
      && |r.value.0| == |c| && |r.value.1| == |c|
      && InBox(r.value.0, L) && !HasClosePair(r.value.0, DefaultSigma)
      && r.value.2 == Gradient(pot, mode, r.value.0, args)
  {
    match Stage1AsWritten(c, v, f, dt, L, mode, DefaultSigma, depth)
    case Err(e) => Err(e)
    case Ok(stage1) =>
      var newForce := Gradient(pot, mode, stage1.config, args);
      var newVelocity := Stage2Velocities(c, stage1.velocity, newForce, dt, nu, u, g);
      Ok((stage1.config, newVelocity, newForce))
  }

  /**
   * With no force and no thermostat, one md_move step that needs no retry is
   * uniform straight-line motion: x' = x + dt*v folded into the box, v' = v.
   */
  lemma FreeFlight(c: seq<real>, v: seq<real>, mode: BoundaryMode, dt: real, L: real,
                   pot: Potential, args: seq<real>, u: seq<real>, g: seq<real>, depth: nat)
    requires L > 0.0 && Covers(c, v) && Covers(c, u) && Covers(c, g) && ForceShaped(pot)
    requires forall i :: 0 <= i < |u| ==> 0.0 <= u[i]
    requires !HasClosePair(Stage1Positions(c, v, Zeros(|c|), dt, L, mode), DefaultSigma)
    requires Gradient(pot, mode, Stage1Positions(c, v, Zeros(|c|), dt, L, mode), args) == Zeros(|c|)
    ensures
      var r := MdMove(c, v, Zeros(|c|), mode, dt, L, 0.0, pot, args, u, g, depth);
      && r.Ok?
      && forall i :: 0 <= i < 2 * NumParticles(c) ==>
           r.value.0[i] == Fold(c[i] + dt * v[i], L, mode) && r.value.1[i] == v[i]
  {
    var z := Zeros(|c|);
    var r := MdMove(c, v, z, mode, dt, L, 0.0, pot, args, u, g, depth);
    var v1 := Stage1Velocities(c, v, z, dt);
    forall i | 0 <= i < 2 * NumParticles(c)
      ensures r.value.0[i] == Fold(c[i] + dt * v[i], L, mode) && r.value.1[i] == v[i]
    {
      assert Drift(c[i], v[i], 0.0, dt) == c[i] + dt * v[i];
      assert v1[i] == v[i];
      assert r.value.1[i] == Thermostat(Kick(v1[i], 0.0, dt), u[i], g[i], 0.0, dt);
    }
  }
}
