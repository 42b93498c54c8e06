# A verified model of a 2-D particle simulation's core

This project models the core of a small 2-D particle simulation. Particle
positions live in one flat buffer `x0, y0, x1, y1, …`, and the particle count is
`len // 2`. The model covers four pieces:

- **`overlap_judge`** — the all-pairs overlap test with early exit
  (module `Overlap`).
- **`random_move` and `mc_move`** — one Metropolis Monte Carlo step (module
  `McMove`):
  - it selects one particle;
  - it displaces a copy of that particle and folds it back into the box;
  - it repeats the proposal until the moved particle is clear of all others;
  - it accepts or rejects by the Metropolis test.
- **`motion_integrate` and `md_move`** — one velocity-Verlet step with the
  Andersen thermostat (module `MdToolkit`):
  - stage 1 is the drift and kick, the fold into the box, an all-pairs overlap
    scan, and a redo from the original buffers with `dt / 1000` when the scan
    finds an overlap; the redo scans against the default sigma 1.0 rather
    than the caller's (see "## Findings");
  - stage 2 is the second half kick and the per-component thermostat
    replacement.
- **`get_par_rand`, `generate_random` and `generate_lattice`** — the
  initial-configuration builders (module `ConfigGeneration`).

Supporting modules:

- `Wrappers` holds `Result` and `Option`.
- `Numerics` holds the exact counterparts of Python's numeric operators:
  - float `%` as floor-modulo (`PyMod`);
  - `int()` as truncation toward zero (`TruncToInt`);
  - `int(np.sqrt(n))` as the integer square root (`IntSqrt`).
- `PairPotential` holds the boundary mode and the imported Lennard-Jones
  routines. Those routines are function values the model never looks inside.

Floats are Dafny `real`s, so every result holds for exact arithmetic.

Each call to `random.random()` reads the next entry of an explicit stream
`draws` of samples in [0, 1):

- **`mc_move`**: `draws[0]` selects the particle. Attempt `t` of the proposal
  loop reads `draws[2t+1]` and `draws[2t+2]`. The next draw decides the
  Metropolis test.
- **`generate_random`**: every candidate point consumes four draws, because
  `get_par_rand` draws twice per dimension and keeps the last pair.
- **Thermostat**: the stage-2 thermostat reads draw `u[i]` and Gaussian
  sample `g[i]` for component `i`.

The retry loops of the source end only by chance. In the model they end with
`DrawsExhausted` when the stream runs out, and the stage-1 recursion ends with
`RecursionLimit` when its `depth` budget is spent.

The code is imperative, and the model keeps that form:

- `OverlapJudge`, `RandomMove`, `ProposeUntilFree`, `PlaceOne`, `FillLattice`
  and the stage methods are loops over buffers and arrays.
- Each of those loops is proved equal to a specification function.
- The properties the code promises are proved as lemmas about those
  specification functions.

## Model

| member | source | states |
|---|---|---|
| Numerics.PyMod | mc_move/mc_move.py:19-22 | Python's float `x % L` for L > 0 lies in [0, L) and leaves any x already in [0, L) unchanged |
| Numerics.TruncToInt | mc_move/mc_move.py:65 | `int(x)` truncates toward zero: the floor for x ≥ 0, the ceiling for x < 0 |
| Numerics.IntSqrt | generate_config/config_generation.py:63 | `int(np.sqrt(n))` is the largest r with r·r ≤ n |
| Overlap.SquaredDistance | overlap_judge/overlap.py:18-21 | the per-dimension accumulation equals the squared Euclidean distance of the two particles |
| Overlap.OverlapJudge | overlap_judge/overlap.py:3-30 | the result is True exactly when some pair i < j has squared distance strictly below sigma²; the two `break`s and the one-particle shortcut do not change the answer |
| Overlap.SingleParticleNeverOverlaps | overlap_judge/overlap.py:12-15 | with zero or one particle there is no overlap |
| Overlap.ExactSigmaIsNoOverlap | overlap_judge/overlap.py:23 | two particles exactly sigma apart do not overlap, because the comparison is strict |
| Overlap.WorkedExampleOverlaps | overlap_judge/overlap.py:35-40 | the points (0,0), (1,0), (1,1), (1/2,1/2) overlap at sigma = 1 |
| Overlap.TrailingCoordinateIgnored | overlap_judge/overlap.py:10 | a trailing odd coordinate never changes the answer |
| Overlap.CoincidentParticlesOverlap | overlap_judge/overlap.py:16-24 | moving one particle onto another always produces an overlap for a positive threshold |
| McMove.FoldIntoBox | mc_move/mc_move.py:13-34 | every folded coordinate ends in [0, L]; one already in [0, L] is kept; an out-of-range one ends in [0, L) when periodic and in (0, L] under hard walls |
| McMove.PeriodicWrapAtEdge | mc_move/mc_move.py:19-22 | a periodic coordinate exactly at L is kept; L + ε wraps to ε; −ε wraps to L − ε |
| McMove.HardWallReflectsBelowZero | mc_move/mc_move.py:30-33 | under hard walls −ε is reflected to ε and L + ε to L − ε |
| McMove.ProposeMovesOnlyK | mc_move/mc_move.py:15-34 | the proposed copy has the input's length, differs from it only at entries 2k and 2k+1, and keeps particle k in the box |
| McMove.RandomMove | mc_move/mc_move.py:6-51 | the returned copy is the proposal; the flag is True exactly when some particle j ≠ k lies at a squared distance below sigma (not sigma²) from the moved particle |
| McMove.SelectIndex | mc_move/mc_move.py:64-65 | `int(u·N)` lies in [0, N) for a draw u in [0, 1) and N > 0 |
| McMove.FirstFreeIsFirst | mc_move/mc_move.py:73-75 | the proposal loop stops at an overlap-free attempt, at the first one, and every earlier attempt overlapped; when it finds none, every available attempt overlapped |
| McMove.DownhillAlwaysAccepted | mc_move/mc_move.py:84 | at positive temperature a move with ΔE ≤ 0 passes the Metropolis test, because u < 1 ≤ exp(−βΔE) |
| McMove.McMoveSpec | mc_move/mc_move.py:63-73 | the move fails with ZeroTemperature exactly when temperature is 0, and with NoParticles on an empty configuration |
| McMove.ProposeUntilFree | mc_move/mc_move.py:73-75 | the `while overlap` loop finds a proposal exactly when a first free attempt exists, returns that attempt, and leaves the stream just after it |
| McMove.McMove | mc_move/mc_move.py:57-88 | the method returns the outcome of the move specification on the same draws |
| McMove.MoveParticle | mc_move/mc_move.py:73-88 | after the selection, the proposal loop followed by the Metropolis test returns the specified outcome |
| McMove.AcceptOrReject | mc_move/mc_move.py:77-88 | ΔE = E_after − E_before of the selected particle, each computed by `PairPotential.EnergyOneParticle` (the hard or periodic energy routine, picked by the boundary mode); the proposal is returned when the draw is below exp(−βΔE), the input otherwise |
| McMove.McMoveOutcome | mc_move/mc_move.py:73-88 | a completed move selects a particle in range and keeps the buffer length; a rejected move returns the input unchanged; an accepted move changes only the selected particle, keeps it in [0, L], keeps it clear of every other particle, and reports ΔE of the returned buffer |
| McMove.McMoveAcceptsDownhill | mc_move/mc_move.py:82-86 | at positive temperature, when exp(t) ≥ 1 for t ≥ 0, a move with ΔE ≤ 0 is accepted |
| McMove.FreeProposalKeepsSeparation | mc_move/mc_move.py:36-49 | a proposal that changes only particle k, with k clear of all others, creates no close pair in a configuration that had none |
| McMove.McMovePreservesSeparation | mc_move/mc_move.py:73-88 | if no pair was within sigma, none is after the move |
| MdToolkit.Zeros | md_support/md_toolkit.py:32-33 | `np.zeros_like` has the input's length and all entries 0 |
| MdToolkit.Fold | md_support/md_toolkit.py:45-54 | every stage-1 coordinate ends in [0, L]; in-range coordinates are kept; below 0 the result is below L in both modes; above L it is below L (periodic) or above 0 (hard) |
| MdToolkit.HardWallBelowZeroWraps | md_support/md_toolkit.py:50-54 | under hard walls stage 1 wraps −ε to L − ε, where the Monte Carlo mover reflects it to ε |
| MdToolkit.Stage1Positions | md_support/md_toolkit.py:36-54 | the stage-1 position buffer has the input's length, lies in the box, and keeps a trailing odd entry at 0 |
| MdToolkit.Stage1Spec | md_support/md_toolkit.py:35-68 | the corrected stage 1 (see "## Findings"), whose retry keeps the caller's sigma: every configuration it returns has the input's length, lies in the box and has no pair at squared distance below sigma |
| MdToolkit.Stage1RestartsFromOriginal | md_support/md_toolkit.py:67-68 | a corrected stage-1 result is the update of the original buffers with dt / 1000^m, for some number of retries m within the depth budget |
| MdToolkit.AsWrittenRestartsFromOriginal | md_support/md_toolkit.py:67-68 | the same holds for stage 1 as the code writes it: its result is the update of the original buffers with dt / 1000^m for some m within the depth budget |
| MdToolkit.Stage1AsWritten | md_support/md_toolkit.py:35-68 | stage 1 as the code writes it keeps the length and the box; because every retry scans against the default sigma, a returned configuration has no pair below the caller's sigma or none below 1.0, and no more is promised |
| MdToolkit.RetryDropsSigma | md_support/md_toolkit.py:68 | with sigma = 2, the as-written stage 1 returns the configuration (1,1), (2,1), whose pair is closer than sigma |
| MdToolkit.AsWrittenAgreesAtDefaultSigma | md_support/md_toolkit.py:11-68 | at the default sigma 1.0, the as-written and the corrected stage 1 agree on all inputs |
| MdToolkit.Stage1Update | md_support/md_toolkit.py:35-54 | the nested update loops fill the two buffers with exactly the stage-1 positions and velocities |
| MdToolkit.ScanAllPairs | md_support/md_toolkit.py:56-65 | the scan without early exit flags an overlap exactly when some pair i < j has squared distance below sigma (not sigma²) |
| MdToolkit.Stage1AsCoded | md_support/md_toolkit.py:35-68 | the update, the scan and the recursive redo without `sigma` return the as-written stage 1 |
| MdToolkit.Stage1 | md_support/md_toolkit.py:35-68 | the corrected stage 1, whose redo keeps the caller's sigma, returns the corrected specification: no pair below sigma |
| MdToolkit.NoResamplingWithoutRate | md_support/md_toolkit.py:73-81 | when nu·dt ≤ 0, no draw in [0, 1) fires, and every stage-2 component is the plain half kick |
| MdToolkit.ResamplingReplacesOutright | md_support/md_toolkit.py:80-81 | a component whose draw fires becomes the Gaussian sample, whatever the velocity and force were |
| MdToolkit.HalfKick | md_support/md_toolkit.py:71-74 | the stage-2 kick loop fills a fresh buffer with v + dt·f/2 per component |
| MdToolkit.Resample | md_support/md_toolkit.py:77-81 | the thermostat loop replaces a component in place exactly when its draw fires, and keeps the rest |
| MdToolkit.Stage2 | md_support/md_toolkit.py:70-83 | stage 2 returns an all-zero position buffer and the kicked, thermostatted velocities |
| MdToolkit.MotionIntegrate | md_support/md_toolkit.py:9-83 | func_mode 1 runs stage 1 as the code writes it (retries at the default sigma), func_mode 2 runs stage 2, and any other mode returns two all-zero buffers |
| MdToolkit.MdMove | md_support/md_toolkit.py:88-120 | md_move succeeds exactly when the as-written stage 1 at the default sigma does; its positions have the input's length, lie in the box and have no pair below the default sigma; its force is `PairPotential.Gradient` (the hard or periodic gradient routine, picked by the boundary mode) at those positions |
| MdToolkit.FreeFlight | md_support/md_toolkit.py:36-42 | with zero force, no thermostat and no retry, one md_move step moves every coordinate to x + dt·v, folded into the box, and keeps every velocity |
| ConfigGeneration.ParticleCount | generate_config/config_generation.py:24-25 | N = int(L·L·rho) is non-negative exactly when L·L·rho > −1 |
| ConfigGeneration.GetParRand | generate_config/config_generation.py:8-13 | of the four draws, the last two scaled by L are the point returned |
| ConfigGeneration.PointInBox | generate_config/config_generation.py:8-13 | for draws in [0, 1) and L > 0, the point lies in [0, L) × [0, L) |
| ConfigGeneration.FirstFreePointIsFirst | generate_config/config_generation.py:36-43 | the redraw loop stops at the first group of four draws whose point leaves no pair closer than sigma, and every earlier group overlapped |
| ConfigGeneration.NoFreePointAllOverlap | generate_config/config_generation.py:38-43 | when the stream runs out, every remaining complete group overlapped |
| ConfigGeneration.PlaceParticlesSound | generate_config/config_generation.py:29-45 | placement appends 2 entries per particle, never moves an earlier particle, keeps the configuration free of pairs closer than sigma, and keeps every coordinate in [0, L) |
| ConfigGeneration.GenerateRandomOutcome | generate_config/config_generation.py:17-46 | generate_random returns 2·N coordinates, none of them closer than sigma to another particle, all in [0, L) |
| ConfigGeneration.DefaultThresholdSeparation | generate_config/config_generation.py:17 | at the default threshold 0.5, every two placed particles are at squared distance at least 0.25 |
| ConfigGeneration.DrawPoint | generate_config/config_generation.py:32 | one get_par_rand call on the stream gives the candidate point of that group of four draws |
| ConfigGeneration.OverwriteLastPoint | generate_config/config_generation.py:40-41 | writing the two entries of the current particle replaces its point and nothing else |
| ConfigGeneration.PlaceOne | generate_config/config_generation.py:30-43 | append, judge, then redraw in place until free: it finds a point exactly when a free group exists, places the first one, and keeps the prefix |
| ConfigGeneration.GenerateRandom | generate_config/config_generation.py:17-46 | the placement loop returns the generate_random specification |
| ConfigGeneration.LatticeRoot | generate_config/config_generation.py:63 | N_root = int(sqrt(N)) + 1 is positive, N < N_root², and (N_root − 1)² ≤ N |
| ConfigGeneration.GenerateLattice | generate_config/config_generation.py:49-77 | it fails exactly when N < 0; otherwise particle k sits at ((k div N_root)·interval, (k mod N_root)·interval) |
| ConfigGeneration.FillLattice | generate_config/config_generation.py:66-74 | the counter loop fills 2N entries with the lattice sites |
| ConfigGeneration.LatticeStep | generate_config/config_generation.py:70-74 | one pass puts particle k on its site and keeps the earlier ones |
| ConfigGeneration.GridCellsDistinct | generate_config/config_generation.py:72-73 | distinct particles get distinct (k div N_root, k mod N_root) grid cells |
| ConfigGeneration.LatticeOverlapFree | generate_config/config_generation.py:56 | with a positive spacing, no two lattice particles are closer than one interval, so none coincide |
| ConfigGeneration.LatticeInBox | generate_config/config_generation.py:63-74 | when (N_root − 1)·interval ≤ L and N ≤ N_root², every lattice coordinate lies in [0, L] |
| ConfigGeneration.LatticeSpacingFits | generate_config/config_generation.py:63-64 | for N > 0 and the spacing L / sqrt(N), given as interval ≥ 0 with interval²·N = L², (N_root − 1)·interval ≤ L |
| ConfigGeneration.GeneratedLatticeInBox | generate_config/config_generation.py:58-77 | the lattice of N sites with side N_root = int(sqrt(N)) + 1 and spacing L / sqrt(N) lies in [0, L] for L ≥ 0 |

Edge cases of the folds that the model keeps as the code has them:

- The out-of-range test is `x > L`, so a coordinate exactly at L is kept at L
  rather than wrapped to 0 (`McMove.PeriodicWrapAtEdge`).
- Coordinates therefore end in [0, L], not [0, L).
- A hard-wall reflection of an out-of-range coordinate ends in (0, L].
- Below 0, stage 1 of the integrator wraps under hard walls rather than
  reflecting (`MdToolkit.HardWallBelowZeroWraps`).

## Left out

- The box size L must be positive, and the folds require L > 0. With L = 0 the
  source's numpy fold `x % 0.0` yields nan (with a runtime warning, not an
  exception). With L < 0 the fold lands in (L, 0]. Neither is a box.
- The velocity, force, thermostat and gradient buffers must be at least as
  long as the particle coordinates (`MdToolkit.Covers`), and the gradient
  routines must return buffers of the configuration's length
  (`PairPotential.ForceShaped`). The source raises IndexError on shorter
  buffers; that error path is not modelled.
- The Lennard-Jones energy and gradient routines are not part of this model.
  They are function values of `PairPotential.Potential`, so every property
  holds for any potential.
- `random.random()` is an explicit stream of draws, as described above.
  `np.exp` is a function parameter, and only `exp(t) ≥ 1` for t ≥ 0 is
  assumed, by the lemma that needs it.
- The Gaussian sampler `gauss_distributed` and its `np.sqrt(temperature)` are
  not modelled. Their samples are the input `g`.
- McMove.McMove: requires only the selection draw to lie in [0, 1)
  (`SelectionDraw`). The lemmas about its outcome assume the whole stream does.
- McMove.RandomMove: the displacement draws are parameters `ux` and `uy`. Each
  call reads two fresh draws, as the source does.
- MdToolkit.MdMove: the two stages and the gradient are composed as functions.
  The stage methods are proved equal to the same functions.
- MdToolkit.MotionIntegrate: func_mode 1 follows the code's retry, so it
  promises no pair below the caller's sigma only when the first scan passes;
  after a retry it promises none below 1.0. The corrected `MdToolkit.Stage1`
  is proved but not called from it.
- MdToolkit.Stage1AsCoded: promises only what the code does, as for
  MotionIntegrate above.
- MdToolkit.Stage1Spec: this is the corrected stage 1, not the code's retry,
  which scans against the default sigma (see "## Findings").
- MdToolkit.Stage1Spec: termination of the shrink-and-retry recursion is not
  modelled. The `depth` budget stands for Python's recursion limit, and
  exhausting it gives `RecursionLimit`.
- The retry loops of `mc_move` and `generate_random` may never end in the
  source. The model proves their results on exit and reports `DrawsExhausted`
  when the finite stream runs out.
- `np.zeros_like` inherits the dtype of the configuration. An integer
  configuration would truncate the stage-1 positions, and the model assumes a
  float buffer.
- McMove.RandomMove: `configuration.copy()` also keeps the buffer's dtype, so
  an integer configuration would truncate the displaced and folded
  coordinates. The model assumes a float buffer here too.
- Floating-point rounding is not modelled, since all arithmetic is exact on
  `real`. Examples: `x % L` is computed exactly, and `(y_index − 1)/2` in
  generate_lattice is always the exact integer k.
- ConfigGeneration.GenerateLattice: `axis_interval = L / np.sqrt(N)` is a
  parameter `interval`, because the model has no square root on reals.
  `ConfigGeneration.GeneratedLatticeInBox` gives that parameter its defining
  property, interval ≥ 0 with interval²·N = L², and derives the box property
  from int(sqrt(N))² ≤ N.
- ConfigGeneration.GetParRand: its in-box property is stated on the point it
  returns, by `ConfigGeneration.PointInBox`, rather than on the method.
- The `dimension` parameter is fixed at 2, the only value the callers pass.
- velocity_generation, radial_distribution and the plotting modules are not
  part of this model. The `__main__` blocks are also left out, except the
  worked example of overlap_judge.

## Findings

| source | as written | input that shows it | evidently intended | confidence | as-written member | corrected member |
|---|---|---|---|---|---|---|
| md_support/md_toolkit.py:68 | the recursive redo of stage 1 does not pass `sigma`, so every retry scans against the default 1.0 | sigma = 2, particles at (1,1) and (2,1), zero velocity and force, dt = 1, L = 10, hard walls: the first scan finds the pair (squared distance 1 < 2), the retry accepts the same configuration against 1.0 | the retry uses the caller's sigma, so a returned configuration has no pair below sigma | not executed | MdToolkit.Stage1AsWritten, MdToolkit.Stage1AsCoded, MdToolkit.RetryDropsSigma | MdToolkit.Stage1Spec, MdToolkit.Stage1 |
