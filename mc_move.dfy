/**
 * The Metropolis Monte Carlo mover of mc_move/mc_move.py.
 *
 * Every call to `random.random()` is read from an explicit stream `draws` of
 * uniform samples in [0, 1), consumed in the order the Python code consumes
 * them: draws[0] selects the particle, attempt t of the proposal loop reads
 * draws[2t+1] and draws[2t+2], and the draw after the accepted proposal
 * decides the Metropolis test.
 */
module McMove {
  import opened Wrappers
  import opened Numerics
  import opened PairPotential
  import opened Overlap

  /** random_move's default threshold, compared with the squared distance itself (not squared). */
  const MoveSigma: real := 0.1

  datatype McOutcome = McOutcome(config: seq<real>, deltaE: real, accepted: bool)

  datatype McError =
    | ZeroTemperature  // beta = 1/temperature raises ZeroDivisionError
    | NoParticles      // the selected particle 0 does not exist: IndexError
    | DrawsExhausted   // the finite draw stream ran out before the move finished

  /**
   * Boundary handling of a displaced coordinate: out of [0, L] it is wrapped
   * by floor-modulo (periodic) or reflected to L - (x mod L) (hard walls).
   */
  function Fold(x: real, L: real, mode: BoundaryMode): real
    requires L > 0.0
  {
    if x > L || x < 0.0 then
      match mode
      case Periodic => PyMod(x, L)
      case Hard => L - PyMod(x, L)
    else x
  }

  /**
   * Every folded coordinate lies in [0, L]; one already in [0, L] is kept;
   * an out-of-range one ends in [0, L) when periodic and in (0, L] under hard
   * walls.
   */
  lemma FoldIntoBox(x: real, L: real, mode: BoundaryMode)
    requires L > 0.0
    ensures 0.0 <= Fold(x, L, mode) <= L
    ensures 0.0 <= x <= L ==> Fold(x, L, mode) == x
    ensures (x < 0.0 || L < x) && mode == Periodic ==> Fold(x, L, mode) < L
    ensures (x < 0.0 || L < x) && mode == Hard ==> 0.0 < Fold(x, L, mode)
  {
  }

  /** A coordinate exactly at L is kept; one just beyond L wraps to the excess. */
  lemma PeriodicWrapAtEdge(L: real, eps: real)
    requires L > 0.0 && 0.0 < eps < L
    ensures Fold(L, L, Periodic) == L
    ensures Fold(L + eps, L, Periodic) == eps
    ensures Fold(-eps, L, Periodic) == L - eps
  {
    PyModUnique(L + eps, L, 1, eps);
    PyModUnique(-eps, L, -1, L - eps);
  }

  /** Under hard walls a coordinate just below 0 is reflected back to eps. */
  lemma HardWallReflectsBelowZero(L: real, eps: real)
    requires L > 0.0 && 0.0 < eps < L
    ensures Fold(-eps, L, Hard) == eps
    ensures Fold(L + eps, L, Hard) == L - eps
  {
    PyModUnique(-eps, L, -1, L - eps);
    PyModUnique(L + eps, L, 1, eps);
  }

  /** The displaced coordinate before boundary handling. */
  function Displace(x: real, u: real, delta: real): real
  {
    x + (u - 0.5) * delta
  }

  /**
   * The copy random_move builds: only particle k's two coordinates change,
   * and they end inside the box.
   */
  function Propose(c: seq<real>, k: int, L: real, delta: real, mode: BoundaryMode, ux: real, uy: real): seq<real>
    requires L > 0.0 && 0 <= k < NumParticles(c)
  {
    c[2 * k := Fold(Displace(c[2 * k], ux, delta), L, mode)][2 * k + 1 := Fold(Displace(c[2 * k + 1], uy, delta), L, mode)]
  }

  /** The proposal has the input's length, differs only at particle k, and keeps k in the box. */
  lemma ProposeMovesOnlyK(c: seq<real>, k: int, L: real, delta: real, mode: BoundaryMode, ux: real, uy: real)
    requires L > 0.0 && 0 <= k < NumParticles(c)
    ensures var r := Propose(c, k, L, delta, mode, ux, uy);
      && |r| == |c| && NumParticles(r) == NumParticles(c)
      && (forall i :: 0 <= i < |c| && i != 2 * k && i != 2 * k + 1 ==> r[i] == c[i])
      && 0.0 <= r[2 * k] <= L && 0.0 <= r[2 * k + 1] <= L
  {
    FoldIntoBox(Displace(c[2 * k], ux, delta), L, mode);
    FoldIntoBox(Displace(c[2 * k + 1], uy, delta), L, mode);
  }

  /** Some other particle lies at a squared distance below `threshold` from particle k. */
  predicate MovedParticleClose(c: seq<real>, k: int, threshold: real)
  {
    && 0 <= k < NumParticles(c)
    && exists j :: 0 <= j < NumParticles(c) && j != k && SqDist(c, k, j) < threshold
  }

  /**
   * random_move: copies the buffer, displaces particle k and folds it into the
   * box, then compares only the moved particle with every other particle.
   */
  method RandomMove(c: seq<real>, L: real, delta: real, k: int, mode: BoundaryMode, ux: real, uy: real, sigma: real)
    returns (copy: seq<real>, overlap: bool)
    requires L > 0.0 && 0 <= k < NumParticles(c)
    ensures copy == Propose(c, k, L, delta, mode, ux, uy)
    ensures overlap <==> MovedParticleClose(copy, k, sigma)
  {
    ghost var target := Propose(c, k, L, delta, mode, ux, uy);
    var buffer := new real[|c|](i requires 0 <= i < |c| => c[i]);
    for d := 0 to 2
      invariant forall i :: 0 <= i < |c| ==> buffer[i] == if 2 * k <= i < 2 * k + d then target[i] else c[i]
    {
      var u := if d == 0 then ux else uy;
      var xNew := Displace(c[2 * k + d], u, delta);
      buffer[2 * k + d] := Fold(xNew, L, mode);
    }
    copy := buffer[..];
    assert copy == target;

    overlap := false;
    var particles := |c| / 2;
    for i := 0 to particles
      invariant !overlap ==> forall j :: 0 <= j < i && j != k ==> SqDist(copy, k, j) >= sigma
      invariant overlap ==> MovedParticleClose(copy, k, sigma)
    {
      if i == k {
        continue;
      }
      var r2 := SquaredDistance(copy, k, i);
      if r2 < sigma {
        overlap := true;
        break;
      }
    }
  }

  /**
   * The selection draw is a sample of `random.random()`; it is the only draw
   * whose range the move itself depends on.
   */
  predicate SelectionDraw(draws: seq<real>)
  {
    |draws| > 0 ==> 0.0 <= draws[0] < 1.0
  }

  /** `int(u * N)`: the selected particle lies in [0, N) for a draw in [0, 1). */
  function SelectIndex(u: real, n: nat): (k: int)
    ensures 0.0 <= u < 1.0 && 0 < n ==> 0 <= k < n
  {
    assert 0.0 <= u < 1.0 && 0 < n ==> u * n as real < n as real by {
      if 0.0 <= u < 1.0 && 0 < n { MulMonotone(u, u, 1.0, n as real); }
    }
    TruncToInt(u * n as real)
  }

  /** Attempt t of the proposal loop. */
  function Attempt(c: seq<real>, k: int, L: real, delta: real, mode: BoundaryMode, draws: seq<real>, t: nat): seq<real>
    requires L > 0.0 && 0 <= k < NumParticles(c) && 2 * t + 2 < |draws|
  {
    Propose(c, k, L, delta, mode, draws[2 * t + 1], draws[2 * t + 2])
  }

  /** Attempt t leaves particle k at a squared distance of at least MoveSigma from all others. */
  predicate AttemptFree(c: seq<real>, k: int, L: real, delta: real, mode: BoundaryMode, draws: seq<real>, t: nat)
    requires L > 0.0 && 0 <= k < NumParticles(c) && 2 * t + 2 < |draws|
  {
    var a := Attempt(c, k, L, delta, mode, draws, t);
    !MovedParticleClose(a, k, MoveSigma)
  }

  /**
   * The attempt at which the `while overlap` loop, started at attempt t,
   * stops: the first overlap-free proposal, or None if the draws run out.
   */
  function FirstFree(c: seq<real>, k: int, L: real, delta: real, mode: BoundaryMode, draws: seq<real>, t: nat): Option<nat>
    requires L > 0.0 && 0 <= k < NumParticles(c)
    decreases |draws| - 2 * t
  {
    if 2 * t + 2 >= |draws| then None
    else if AttemptFree(c, k, L, delta, mode, draws, t) then Some(t)
    else FirstFree(c, k, L, delta, mode, draws, t + 1)
  }

  /**
   * The proposal loop leaves only with an overlap-free proposal, and with the
   * first one; when it finds none, every available attempt overlapped.
   */
  lemma {:induction false} FirstFreeIsFirst(c: seq<real>, k: int, L: real, delta: real, mode: BoundaryMode, draws: seq<real>, t: nat)
    requires L > 0.0 && 0 <= k < NumParticles(c)
    ensures
      var r := FirstFree(c, k, L, delta, mode, draws, t);
      && (r.Some? ==>
            && t <= r.value && 2 * r.value + 2 < |draws|
            && AttemptFree(c, k, L, delta, mode, draws, r.value)
            && forall s :: t <= s < r.value ==> !AttemptFree(c, k, L, delta, mode, draws, s))
      && (r.None? ==> forall s :: t <= s && 2 * s + 2 < |draws| ==> !AttemptFree(c, k, L, delta, mode, draws, s))
    decreases |draws| - 2 * t
  {
    if 2 * t + 2 < |draws| && !AttemptFree(c, k, L, delta, mode, draws, t) {
      FirstFreeIsFirst(c, k, L, delta, mode, draws, t + 1);
    }
  }

  /** The Metropolis test `u < exp(-beta * deltaE)` with beta = 1/temperature. */
  function Accepts(deltaE: real, temperature: real, u: real, exp: real -> real): bool
    requires temperature != 0.0
  {
    var beta := 1.0 / temperature;
    u < exp(-beta * deltaE)
  }

  /** A move that does not raise the energy is always accepted at positive temperature. */
  lemma DownhillAlwaysAccepted(deltaE: real, temperature: real, u: real, exp: real -> real)
    requires temperature > 0.0 && deltaE <= 0.0 && u < 1.0
    requires forall t :: 0.0 <= t ==> 1.0 <= exp(t)
    ensures Accepts(deltaE, temperature, u, exp)
  {
    var beta := 1.0 / temperature;
    assert 0.0 <= -beta * deltaE;
  }

  /** The result of mc_move on a given draw stream. */
  function McMoveSpec(c: seq<real>, L: real, delta: real, mode: BoundaryMode, temperature: real,
                      pot: Potential, exp: real -> real, draws: seq<real>): (r: Result<McOutcome, McError>)
    requires L > 0.0 && SelectionDraw(draws)
    ensures temperature == 0.0 <==> r == Err(ZeroTemperature)
    ensures temperature != 0.0 && 0 < |draws| && NumParticles(c) == 0 ==> r == Err(NoParticles)
  {
    if temperature == 0.0 then Err(ZeroTemperature)
    else if |draws| == 0 then Err(DrawsExhausted)
    else if NumParticles(c) == 0 then Err(NoParticles)
    else MoveSelected(c, SelectIndex(draws[0], NumParticles(c)), L, delta, mode, temperature, pot, exp, draws)
  }

  /** What mc_move does once particle k is selected: the proposal loop, then the Metropolis test. */
  function MoveSelected(c: seq<real>, k: int, L: real, delta: real, mode: BoundaryMode, temperature: real,
                        pot: Potential, exp: real -> real, draws: seq<real>): Result<McOutcome, McError>
    requires L > 0.0 && 0 <= k < NumParticles(c) && temperature != 0.0
  {
    match FirstFree(c, k, L, delta, mode, draws, 0)
    case None => Err(DrawsExhausted)
    case Some(t) =>
      if 2 * t + 3 >= |draws| then Err(DrawsExhausted)
      else
        Ok(Metropolis(c, Attempt(c, k, L, delta, mode, draws, t), k, L, mode, temperature, pot, exp, draws[2 * t + 3]))
  }

  /** The Metropolis decision on a proposal, with acceptance draw u. */
  function Metropolis(c: seq<real>, proposal: seq<real>, k: int, L: real, mode: BoundaryMode, temperature: real,
                      pot: Potential, exp: real -> real, u: real): McOutcome
    requires temperature != 0.0
  {
    var deltaE := EnergyOneParticle(pot, mode, proposal, L, k) - EnergyOneParticle(pot, mode, c, L, k);
    var accepted := Accepts(deltaE, temperature, u, exp);
    McOutcome(if accepted then proposal else c, deltaE, accepted)
  }

  /**
   * The proposal loop of mc_move: random_move is called once and then again
   * for as long as the moved particle overlaps, always from the original
   * configuration. `next` is the position of the first unread draw.
   */
  method ProposeUntilFree(c: seq<real>, L: real, delta: real, k: int, mode: BoundaryMode, draws: seq<real>)
    returns (found: bool, proposal: seq<real>, next: nat)
    requires L > 0.0 && 0 <= k < NumParticles(c)
    ensures found <==> FirstFree(c, k, L, delta, mode, draws, 0).Some?
    ensures found ==>
      var t := FirstFree(c, k, L, delta, mode, draws, 0).value;
      next == 2 * t + 3 && next <= |draws| && proposal == Attempt(c, k, L, delta, mode, draws, t)
  {
    next := 1;
    if |draws| < next + 2 {
      return false, c, next;
    }
    var overlap;
    proposal, overlap := RandomMove(c, L, delta, k, mode, draws[next], draws[next + 1], MoveSigma);
    next := next + 2;
    ghost var t: nat := 0;
    while overlap
      invariant next == 2 * t + 3 && next <= |draws|
      invariant proposal == Attempt(c, k, L, delta, mode, draws, t)
      invariant overlap <==> !AttemptFree(c, k, L, delta, mode, draws, t)
      invariant FirstFree(c, k, L, delta, mode, draws, 0) == FirstFree(c, k, L, delta, mode, draws, t)
      decreases |draws| - next
    {
      if |draws| < next + 2 {
        return false, proposal, next;
      }
      proposal, overlap := RandomMove(c, L, delta, k, mode, draws[next], draws[next + 1], MoveSigma);
      assert proposal == Attempt(c, k, L, delta, mode, draws, t + 1);
      next := next + 2;
      t := t + 1;
    }
    found := true;
  }

  /**
   * mc_move: selects a particle, proposes moves of it until one is free of
   * overlap, then accepts or rejects it by the Metropolis test.
   */
  method McMove(c: seq<real>, L: real, delta: real, mode: BoundaryMode, temperature: real,
                pot: Potential, exp: real -> real, draws: seq<real>) returns (r: Result<McOutcome, McError>)
    requires L > 0.0 && SelectionDraw(draws)
    ensures r == McMoveSpec(c, L, delta, mode, temperature, pot, exp, draws)
  {
    if temperature == 0.0 {
      return Err(ZeroTemperature);
    }
    var totalParticle := |c| / 2;
    if |draws| == 0 {
      return Err(DrawsExhausted);
    }
    var randomSelected := SelectIndex(draws[0], totalParticle);
    if totalParticle == 0 {
      return Err(NoParticles);
    }
    r := MoveParticle(c, randomSelected, L, delta, mode, temperature, pot, exp, draws);
  }

  /** The body of mc_move after the selection of particle k. */
  method MoveParticle(c: seq<real>, k: int, L: real, delta: real, mode: BoundaryMode, temperature: real,
                      pot: Potential, exp: real -> real, draws: seq<real>) returns (r: Result<McOutcome, McError>)
    requires L > 0.0 && 0 <= k < NumParticles(c) && temperature != 0.0
    ensures r == MoveSelected(c, k, L, delta, mode, temperature, pot, exp, draws)
  {
    var found, newConfiguration, next := ProposeUntilFree(c, L, delta, k, mode, draws);
    if !found {
      return Err(DrawsExhausted);
    }
    if |draws| <= next {
      return Err(DrawsExhausted);
    }
    var outcome := AcceptOrReject(c, newConfiguration, k, L, mode, temperature, pot, exp, draws[next]);
    r := Ok(outcome);
  }

  /**
   * The tail of mc_move: the energy of the selected particle before and after
   * the move, then acceptance when the draw is below exp(-beta * deltaE).
   */
  method AcceptOrReject(c: seq<real>, newConfiguration: seq<real>, k: int, L: real, mode: BoundaryMode,
                        temperature: real, pot: Potential, exp: real -> real, u: real) returns (outcome: McOutcome)
    requires temperature != 0.0
    ensures outcome == Metropolis(c, newConfiguration, k, L, mode, temperature, pot, exp, u)
  {
    var energyBeforeMove := EnergyOneParticle(pot, mode, c, L, k);
    var energyAfterMove := EnergyOneParticle(pot, mode, newConfiguration, L, k);
    var energyDifference := energyAfterMove - energyBeforeMove;
    var newConfigAccepted := false;
    var configuration := c;
    if Accepts(energyDifference, temperature, u, exp) {
      newConfigAccepted := true;
      configuration := newConfiguration;
    }
    outcome := McOutcome(configuration, energyDifference, newConfigAccepted);
  }

  /**
   * What a completed move returns: the selected particle is in range; a
   * rejected move returns the input unchanged; an accepted move changes only
   * the selected particle, keeps it in the box and away from every other
   * particle; and the energy difference is that of the returned buffer.
   */
  lemma McMoveOutcome(c: seq<real>, L: real, delta: real, mode: BoundaryMode, temperature: real,
                      pot: Potential, exp: real -> real, draws: seq<real>)
    requires L > 0.0 && UnitDraws(draws)
    requires McMoveSpec(c, L, delta, mode, temperature, pot, exp, draws).Ok?
    ensures
      var r := McMoveSpec(c, L, delta, mode, temperature, pot, exp, draws).value;
      var k := SelectIndex(draws[0], NumParticles(c));
      && 0 <= k < NumParticles(c)
      && |r.config| == |c|
      && (!r.accepted ==> r.config == c)
      && (r.accepted ==>
            && (forall i :: 0 <= i < |c| && i != 2 * k && i != 2 * k + 1 ==> r.config[i] == c[i])
            && 0.0 <= r.config[2 * k] <= L && 0.0 <= r.config[2 * k + 1] <= L
            && !MovedParticleClose(r.config, k, MoveSigma)
            && r.deltaE == EnergyOneParticle(pot, mode, r.config, L, k) - EnergyOneParticle(pot, mode, c, L, k))
  {
    var k := SelectIndex(draws[0], NumParticles(c));
    var t := FirstFree(c, k, L, delta, mode, draws, 0).value;
    FirstFreeIsFirst(c, k, L, delta, mode, draws, 0);
    assert AttemptFree(c, k, L, delta, mode, draws, t);
  }

  /** When the move lowers or keeps the energy at positive temperature, it is accepted. */
  lemma McMoveAcceptsDownhill(c: seq<real>, L: real, delta: real, mode: BoundaryMode, temperature: real,
                              pot: Potential, exp: real -> real, draws: seq<real>)
    requires L > 0.0 && UnitDraws(draws) && temperature > 0.0
    requires forall t :: 0.0 <= t ==> 1.0 <= exp(t)
    requires McMoveSpec(c, L, delta, mode, temperature, pot, exp, draws).Ok?
    requires McMoveSpec(c, L, delta, mode, temperature, pot, exp, draws).value.deltaE <= 0.0
    ensures McMoveSpec(c, L, delta, mode, temperature, pot, exp, draws).value.accepted
  {
    var k := SelectIndex(draws[0], NumParticles(c));
    var t := FirstFree(c, k, L, delta, mode, draws, 0).value;
    var r := McMoveSpec(c, L, delta, mode, temperature, pot, exp, draws).value;
    DownhillAlwaysAccepted(r.deltaE, temperature, draws[2 * t + 3], exp);
  }

  /**
   * A proposal whose moved particle keeps its distance from all others does
   * not create a close pair in a configuration that had none.
   */
  lemma {:induction false} FreeProposalKeepsSeparation(c: seq<real>, p: seq<real>, k: int, threshold: real)
    requires 0 <= k < NumParticles(c) && |p| == |c|
    requires forall i :: 0 <= i < |c| && i != 2 * k && i != 2 * k + 1 ==> p[i] == c[i]
    requires !HasClosePair(c, threshold) && !MovedParticleClose(p, k, threshold)
    ensures !HasClosePair(p, threshold)
  {
    forall i, j | 0 <= i < j < NumParticles(p)
      ensures threshold <= SqDist(p, i, j)
    {
      if i == k {
        assert SqDist(p, k, j) >= threshold;
      } else if j == k {
        assert SqDist(p, k, i) >= threshold;
        SqDistSymmetric(p, i, j);
      } else {
        assert p[2 * i] == c[2 * i] && p[2 * i + 1] == c[2 * i + 1];
        assert p[2 * j] == c[2 * j] && p[2 * j + 1] == c[2 * j + 1];
        assert SqDist(p, i, j) == SqDist(c, i, j);
      }
    }
  }

  /**
   * mc_move keeps every pair at a squared distance of at least MoveSigma:
   * accepted moves pass the proposal check and rejected moves return the input.
   */
  lemma McMovePreservesSeparation(c: seq<real>, L: real, delta: real, mode: BoundaryMode, temperature: real,
                                  pot: Potential, exp: real -> real, draws: seq<real>)
    requires L > 0.0 && UnitDraws(draws)
    requires !HasClosePair(c, MoveSigma)
    requires McMoveSpec(c, L, delta, mode, temperature, pot, exp, draws).Ok?
    ensures !HasClosePair(McMoveSpec(c, L, delta, mode, temperature, pot, exp, draws).value.config, MoveSigma)
  {
    var r := McMoveSpec(c, L, delta, mode, temperature, pot, exp, draws).value;
    McMoveOutcome(c, L, delta, mode, temperature, pot, exp, draws);
    if r.accepted {
      var k := SelectIndex(draws[0], NumParticles(c));
      FreeProposalKeepsSeparation(c, r.config, k, MoveSigma);
    }
  }
}
