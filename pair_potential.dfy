/**
 * The interface of the Lennard-Jones routines that the movers import. Their
 * definitions are not part of this model: each routine is an opaque function
 * value, so every property proved here holds for any potential.
 */
module PairPotential {

  /** `boundary_periodic == False` selects hard walls, `True` a periodic box. */
  datatype BoundaryMode = Hard | Periodic

  /** The four imported routines, as functions of a flat coordinate buffer. */
  datatype Potential = Potential(
    /** lj_energy_one_particle_c_hard(configuration, i) */
    energyHard: (seq<real>, int) -> real,
    /** lj_energy_one_partivle_c_periodic(configuration, L, i) */
    energyPeriodic: (seq<real>, real, int) -> real,
    /** lj_gradient_c(configuration, *args) */
    gradientHard: (seq<real>, seq<real>) -> seq<real>,
    /** lj_gradient_c_periodic(configuration, *args) */
    gradientPeriodic: (seq<real>, seq<real>) -> seq<real>)

  /** The single-particle energy routine the Monte Carlo mover selects by boundary mode. */
  function EnergyOneParticle(pot: Potential, mode: BoundaryMode, c: seq<real>, L: real, k: int): real
  {
    match mode
    case Periodic => pot.energyPeriodic(c, L, k)
    case Hard => pot.energyHard(c, k)
  }

  /** The gradient routine the molecular-dynamics step selects by boundary mode. */
  function Gradient(pot: Potential, mode: BoundaryMode, c: seq<real>, args: seq<real>): seq<real>
  {
    match mode
    case Periodic => pot.gradientPeriodic(c, args)
    case Hard => pot.gradientHard(c, args)
  }

  /** Force buffers have the configuration's shape, as the velocity update indexes them. */
  ghost predicate ForceShaped(pot: Potential)
  {
    && (forall c, args :: |pot.gradientHard(c, args)| == |c|)
    && (forall c, args :: |pot.gradientPeriodic(c, args)| == |c|)
  }
}
