// The rotor solver (vawt/vawt.hpp, vawt/vawt.cpp): the fluent configuration
// object, the streamtube grid and its upstream/downstream pairing, the
// per-pair solve, and the torque and power coefficients of a solution.

module Rotor {
  import opened Numerics
  import opened AerofoilData
  import opened StreamTubes

  /** `uint`, 32 bits wide. */
  type uint32 = x: int | 0 <= x < 0x1_0000_0000

  const MaxUint32: uint32 := 0xFFFF_FFFF

  /** What `solve_fn` returns for one pair: (beta_up, beta_down, a_up, a_down). */
  datatype PairSolution = PairSolution(betaUp: real, betaDown: real, aUp: real, aDown: real)

  /** A `solve_fn`: the case and the two position angles of a pair. */
  type PairSolver = (VAWTCase, real, real) -> PairSolution

  /** How one tube's induction factor is found (`solve_a`). */
  type TubeSolver = (VAWTCase, StreamTube) -> real

  /** `VAWTSolution`: the case, the streamtube count `c_torque` divides by,
      and per streamtube its position, pitch, induction factor and upstream
      induction factor; plus the accuracy it was solved to. */
  datatype VAWTSolution = VAWTSolution(
    case_: VAWTCase,
    nStreamtubes: uint32,
    theta: seq<real>,
    beta: seq<real>,
    a: seq<real>,
    a0: seq<real>,
    epsilon: real)

  // ---------------------------------------------------------------------------
  // Streamtube count
  // ---------------------------------------------------------------------------

  /** The count `n_streamtubes(n)` stores: `n` when even, else `n + 1` in
      32-bit unsigned arithmetic. */
  function RoundUpToEven(n: uint32): uint32
  {
    if n % 2 != 0 then ((n as int + 1) % 0x1_0000_0000) as uint32 else n
  }

  /** The stored count is always even and never more than one above the
      request; an even request is kept, an odd one is raised by one, except
      the largest `uint`, which wraps around to 0. */
  lemma RoundUpToEvenProperties(n: uint32)
    ensures RoundUpToEven(n) % 2 == 0
    ensures RoundUpToEven(n) <= n + 1
    ensures n % 2 == 0 ==> RoundUpToEven(n) == n
    ensures n % 2 != 0 && n < MaxUint32 ==> RoundUpToEven(n) == n + 1
    ensures n == MaxUint32 ==> RoundUpToEven(n) == 0
  {
  }

  // ---------------------------------------------------------------------------
  // The angular grid and the pairing
  // ---------------------------------------------------------------------------

  /** Position `k` of `n`: the middle of the k-th of n equal sectors,
      `(2k + 1) pi / n` (exact arithmetic). */
  function ThetaAt(n: nat, k: nat): real
  {
    (2 * k + 1) as real * FDiv(Pi, n as real)
  }

  /** The positions lie strictly inside (0, 2 pi) and strictly increase. */
  lemma ThetaInRange(n: nat, k: nat)
    requires k < n
    ensures 0.0 < ThetaAt(n, k) < 2.0 * Pi
  {
    var h := Pi / n as real;
    assert h > 0.0;
    assert (2 * k + 1) as real < 2.0 * n as real;
    assert (2 * k + 1) as real * h < 2.0 * n as real * h;
    assert n as real * h == Pi;
  }

  lemma ThetaIncreasing(n: nat, i: nat, j: nat)
    requires i < j < n
    ensures ThetaAt(n, i) < ThetaAt(n, j)
  {
    var h := Pi / n as real;
    assert h > 0.0;
    assert (2 * j + 1) as real * h - (2 * i + 1) as real * h == (2 * (j - i)) as real * h;
  }

  /** A pair's two positions mirror each other: they add up to a full turn. */
  lemma ThetaPairSum(n: nat, i: nat)
    requires i < n
    ensures ThetaAt(n, i) + ThetaAt(n, n - 1 - i) == 2.0 * Pi
  {
    var h := Pi / n as real;
    assert (2 * i + 1) as real * h + (2 * (n - 1 - i) + 1) as real * h == (2 * n) as real * h;
    assert n as real * h == Pi;
  }

  /** For an even count the pairing `i <-> n - 1 - i` over `i < n / 2` maps
      the upstream half one-to-one onto the downstream half, so every index
      is written by exactly one pair. */
  lemma PairingCoversAll(n: nat, k: nat)
    requires n % 2 == 0 && k < n
    ensures k < n / 2 ==> n / 2 <= n - 1 - k < n
    ensures n / 2 <= k ==> n - 1 - k < n / 2 && n - 1 - (n - 1 - k) == k
  {
  }

  /** The pair `solve_fn` is asked about at upstream index `i`. */
  function PairAt(c: VAWTCase, n: nat, solveFn: PairSolver, i: nat): PairSolution
    requires i < n
  {
    solveFn(c, ThetaAt(n, i), ThetaAt(n, n - 1 - i))
  }

  /** `beta[j]` once the first `done` pairs are stored. */
  function BetaAfter(c: VAWTCase, n: nat, solveFn: PairSolver, done: nat, j: nat): real
    requires done <= n / 2 && j < n
  {
    if j < done then PairAt(c, n, solveFn, j).betaUp
    else if n - done <= j then PairAt(c, n, solveFn, n - 1 - j).betaDown
    else 0.0
  }

  /** `a[j]` once the first `done` pairs are stored. */
  function AAfter(c: VAWTCase, n: nat, solveFn: PairSolver, done: nat, j: nat): real
    requires done <= n / 2 && j < n
  {
    if j < done then PairAt(c, n, solveFn, j).aUp
    else if n - done <= j then PairAt(c, n, solveFn, n - 1 - j).aDown
    else 0.0
  }

  /** `a_0[j]` once the first `done` pairs are stored: the upstream `a` of
      the pair, at the downstream index only. */
  function A0After(c: VAWTCase, n: nat, solveFn: PairSolver, done: nat, j: nat): real
    requires done <= n / 2 && j < n
  {
    if n - done <= j then PairAt(c, n, solveFn, n - 1 - j).aUp else 0.0
  }

  /** Storing pair `i` changes exactly indices `i` and `n - 1 - i`. */
  lemma AfterStep(c: VAWTCase, n: nat, solveFn: PairSolver, i: nat, j: nat)
    requires i < n / 2 && j < n
    ensures var r := PairAt(c, n, solveFn, i);
            && BetaAfter(c, n, solveFn, i + 1, j)
               == (if j == i then r.betaUp else if j == n - 1 - i then r.betaDown else BetaAfter(c, n, solveFn, i, j))
            && AAfter(c, n, solveFn, i + 1, j)
               == (if j == i then r.aUp else if j == n - 1 - i then r.aDown else AAfter(c, n, solveFn, i, j))
            && A0After(c, n, solveFn, i + 1, j)
               == (if j == n - 1 - i then r.aUp else A0After(c, n, solveFn, i, j))
  {
  }

  /** The solution `map_streamtubes` builds for case `c` and count `n`. */
  function MappedSolution(c: VAWTCase, n: uint32, eps: real, solveFn: PairSolver): VAWTSolution
  {
    NewSolution(c, n,
                seq(n, j requires 0 <= j < n => ThetaAt(n, j)),
                seq(n, j requires 0 <= j < n => BetaAfter(c, n, solveFn, n / 2, j)),
                seq(n, j requires 0 <= j < n => AAfter(c, n, solveFn, n / 2, j)),
                seq(n, j requires 0 <= j < n => A0After(c, n, solveFn, n / 2, j)),
                eps)
  }

  /** Arrays that agree with the mapped solution index by index make it. */
  lemma MappedFromArrays(c: VAWTCase, n: uint32, eps: real, solveFn: PairSolver,
                         theta: seq<real>, beta: seq<real>, a: seq<real>, a0: seq<real>)
    requires |theta| == |beta| == |a| == |a0| == n
    requires forall j :: 0 <= j < n ==> theta[j] == ThetaAt(n, j)
    requires forall j :: 0 <= j < n ==> beta[j] == BetaAfter(c, n, solveFn, n / 2, j)
    requires forall j :: 0 <= j < n ==> a[j] == AAfter(c, n, solveFn, n / 2, j)
    requires forall j :: 0 <= j < n ==> a0[j] == A0After(c, n, solveFn, n / 2, j)
    ensures NewSolution(c, n, theta, beta, a, a0, eps) == MappedSolution(c, n, eps, solveFn)
  {
    assert theta == seq(n, j requires 0 <= j < n => ThetaAt(n, j));
    assert beta == seq(n, j requires 0 <= j < n => BetaAfter(c, n, solveFn, n / 2, j));
    assert a == seq(n, j requires 0 <= j < n => AAfter(c, n, solveFn, n / 2, j));
    assert a0 == seq(n, j requires 0 <= j < n => A0After(c, n, solveFn, n / 2, j));
  }

  /** The mapped solution, index by index: four arrays of length `n`, the
      positions on the grid, and for each pair `i < n / 2` exactly the four
      values `solve_fn` returned for it at `i` and `n - 1 - i`; the upstream
      `a_0` stays 0 and the downstream one is the upstream `a`. */
  lemma MappedSolutionShape(c: VAWTCase, n: uint32, eps: real, solveFn: PairSolver, i: nat)
    ensures var s := MappedSolution(c, n, eps, solveFn);
            && |s.theta| == |s.beta| == |s.a| == |s.a0| == n
            && s.nStreamtubes == n && s.epsilon == eps && s.case_ == c
            && (forall k :: 0 <= k < n ==> s.theta[k] == ThetaAt(n, k))
            && (i < n / 2 ==>
                  var r := solveFn(c, s.theta[i], s.theta[n - 1 - i]);
                  && s.beta[i] == r.betaUp && s.beta[n - 1 - i] == r.betaDown
                  && s.a[i] == r.aUp && s.a[n - 1 - i] == r.aDown
                  && s.a0[i] == 0.0 && s.a0[n - 1 - i] == s.a[i])
  {
  }

  // ---------------------------------------------------------------------------
  // Solving a pair
  // ---------------------------------------------------------------------------

  /** `solve_a` for one tube, as a value (the solve function handed to
      `map_streamtubes` is a function and cannot run the method). */
  function SolveTube(phys: Physics, tube: StreamTube, c: VAWTCase, eps: real): real
    requires eps > 0.0
  {
    SolveASpec(Residual(phys, tube, c), eps, StricklandIterate(phys, tube, c, 10))
  }

  /** `StreamTube::solve_a` at the solver's accuracy, as the pair solve
      calls it. */
  function TubeSolverFor(phys: Physics, eps: real): TubeSolver
    requires eps > 0.0
  {
    (c, tube) => SolveTube(phys, tube, c, eps)
  }

  /** The pair solve of `solve(beta)` with the pitch read at each tube's own
      position: the upstream tube with `a_0 = 0`, then the downstream tube
      with `a_0` set to the upstream result. The ensures only name the four
      results; what they mean for the whole rotor is proved in
      `PitchedSolution` and `ConstantPitchSolution`. */
  function SolvePair(solveA: TubeSolver, pitch: real -> real, c: VAWTCase, thetaUp: real, thetaDown: real): (r: PairSolution)
    ensures r.betaUp == pitch(thetaUp) && r.betaDown == pitch(thetaDown)
    ensures r.aUp == solveA(c, StreamTube(thetaUp, r.betaUp, 0.0))
    ensures r.aDown == solveA(c, StreamTube(thetaDown, r.betaDown, r.aUp))
  {
    var betaUp := pitch(thetaUp);
    var betaDown := pitch(thetaDown);
    var aUp := solveA(c, StreamTube(thetaUp, betaUp, 0.0));
    var aDown := solveA(c, StreamTube(thetaDown, betaDown, aUp));
    PairSolution(betaUp, betaDown, aUp, aDown)
  }

  /** The pair solve as the source writes it: the downstream pitch is read
      at `beta_down` itself, a variable not yet initialised; `indeterminate`
      stands for whatever value it holds. */
  function SolvePairAsWritten(solveA: TubeSolver, pitch: real -> real, c: VAWTCase, thetaUp: real, thetaDown: real, indeterminate: real): (r: PairSolution)
    ensures r.betaDown == pitch(indeterminate)
  {
    var betaUp := pitch(thetaUp);
    var betaDown := pitch(indeterminate);
    var aUp := solveA(c, StreamTube(thetaUp, betaUp, 0.0));
    var aDown := solveA(c, StreamTube(thetaDown, betaDown, aUp));
    PairSolution(betaUp, betaDown, aUp, aDown)
  }

  /** With a pitch that varies with position, the as-written pair solve
      gives the downstream tube the wrong pitch: for `beta(x) = x`, a
      downstream position 1 and a stray value 0, it pitches at 0, not 1. */
  lemma SolvePairAsWrittenWrongPitch(solveA: TubeSolver, c: VAWTCase)
    ensures SolvePairAsWritten(solveA, x => x, c, 0.5, 1.0, 0.0).betaDown == 0.0
    ensures SolvePair(solveA, x => x, c, 0.5, 1.0).betaDown == 1.0
  {
  }

  /** For a constant pitch, as `solve(double)` uses, the defect is harmless:
      both versions agree whatever the stray value is. */
  lemma ConstantPitchUnaffected(solveA: TubeSolver, beta: real, c: VAWTCase, thetaUp: real, thetaDown: real, indeterminate: real)
    ensures SolvePairAsWritten(solveA, _ => beta, c, thetaUp, thetaDown, indeterminate)
            == SolvePair(solveA, _ => beta, c, thetaUp, thetaDown)
  {
  }

  /** The solve function `solve` hands to `map_streamtubes`. */
  function PairSolverFor(solveA: TubeSolver, pitch: real -> real): PairSolver
  {
    (c, thetaUp, thetaDown) => SolvePair(solveA, pitch, c, thetaUp, thetaDown)
  }

  /** A solve over an even count: every tube is pitched at its own
      position; each upstream tube is solved with `a_0 = 0` and each
      downstream tube with its partner's `a` as `a_0`, so every index is
      written by exactly one pair. */
  lemma PitchedSolution(solveA: TubeSolver, pitch: real -> real, c: VAWTCase, n: uint32, eps: real, k: nat)
    requires n % 2 == 0 && k < n
    ensures var s := MappedSolution(c, n, eps, PairSolverFor(solveA, pitch));
            && |s.theta| == |s.beta| == |s.a| == |s.a0| == n
            && s.beta[k] == pitch(s.theta[k])
            && (k < n / 2 ==> s.a0[k] == 0.0 && s.a[k] == solveA(c, StreamTube(s.theta[k], s.beta[k], 0.0)))
            && (n / 2 <= k ==> s.a0[k] == s.a[n - 1 - k]
                               && s.a[k] == solveA(c, StreamTube(s.theta[k], s.beta[k], s.a0[k])))
  {
    if k < n / 2 {
      MappedSolutionShape(c, n, eps, PairSolverFor(solveA, pitch), k);
    } else {
      MappedSolutionShape(c, n, eps, PairSolverFor(solveA, pitch), n - 1 - k);
      assert n - 1 - (n - 1 - k) == k;
    }
  }

  /** A constant-pitch solve over an even count: every tube carries the
      pitch; each upstream tube is solved with `a_0 = 0` and each
      downstream tube with its partner's `a` as `a_0`. */
  lemma ConstantPitchSolution(solveA: TubeSolver, c: VAWTCase, n: uint32, eps: real, beta: real, k: nat)
    requires n % 2 == 0 && k < n
    ensures var s := MappedSolution(c, n, eps, PairSolverFor(solveA, _ => beta));
            && s.beta[k] == beta
            && (k < n / 2 ==> s.a0[k] == 0.0 && s.a[k] == solveA(c, StreamTube(s.theta[k], beta, 0.0)))
            && (n / 2 <= k ==> s.a0[k] == s.a[n - 1 - k]
                               && s.a[k] == solveA(c, StreamTube(s.theta[k], beta, s.a0[k])))
  {
    PitchedSolution(solveA, _ => beta, c, n, eps, k);
  }

  // ---------------------------------------------------------------------------
  // VAWTSolution
  // ---------------------------------------------------------------------------

  /** The `VAWTSolution` constructor, storing the streamtube count it is
      given (the count `c_torque` divides by). */
  function NewSolution(c: VAWTCase, n: uint32, theta: seq<real>, beta: seq<real>, a: seq<real>, a0: seq<real>, eps: real): VAWTSolution
  {
    VAWTSolution(c, n, theta, beta, a, a0, eps)
  }

  /** The constructor as the source writes it: its initialiser list skips
      `n_streamtubes`, which keeps an indeterminate value. */
  function NewSolutionAsWritten(c: VAWTCase, n: uint32, theta: seq<real>, beta: seq<real>, a: seq<real>, a0: seq<real>, eps: real, indeterminate: uint32): VAWTSolution
  {
    VAWTSolution(c, indeterminate, theta, beta, a, a0, eps)
  }

  /** `epsilon()` */
  function SolutionEpsilon(s: VAWTSolution): real
  {
    s.epsilon
  }

  /** The constructor keeps everything it is given, and `epsilon()` gives
      the accuracy back. */
  lemma NewSolutionKeeps(c: VAWTCase, n: uint32, theta: seq<real>, beta: seq<real>, a: seq<real>, a0: seq<real>, eps: real)
    ensures var s := NewSolution(c, n, theta, beta, a, a0, eps);
            && s.case_ == c && s.nStreamtubes == n
            && s.theta == theta && s.beta == beta && s.a == a && s.a0 == a0
            && SolutionEpsilon(s) == eps
  {
  }

  /** The per-streamtube arrays have one entry per position. */
  predicate SolutionWellFormed(s: VAWTSolution)
  {
    |s.beta| == |s.theta| && |s.a| == |s.theta| && |s.a0| == |s.theta|
  }

  /** The stored sample `i` as a streamtube solution. */
  function SampleAt(s: VAWTSolution, i: nat): StreamTubeSolution
    requires SolutionWellFormed(s) && i < |s.theta|
  {
    StreamTubeSolution(s.case_, StreamTube(s.theta[i], s.beta[i], s.a0[i]), s.a[i])
  }

  /** `c_tan w^2` of stored sample `i`. */
  function SampleTorque(phys: Physics, s: VAWTSolution, i: nat): real
    requires SolutionWellFormed(s) && i < |s.theta|
  {
    var sample := SampleAt(s, i);
    SolutionCTan(phys, sample) * Sq(SolutionW(phys.trig, sample))
  }

  /** `sum c_tan_i w_i^2` over the first `k` stored samples. */
  function TorqueSum(phys: Physics, s: VAWTSolution, k: nat): real
    requires SolutionWellFormed(s) && k <= |s.theta|
  {
    if k == 0 then 0.0 else TorqueSum(phys, s, k - 1) + SampleTorque(phys, s, k - 1)
  }

  /** What `c_torque` returns: `solidity / n * sum c_tan_i w_i^2`. */
  function CTorqueSpec(phys: Physics, s: VAWTSolution): real
    requires SolutionWellFormed(s)
  {
    s.case_.solidity * FDiv(TorqueSum(phys, s, |s.theta|), s.nStreamtubes as real)
  }

  /** `c_tan` and `w` of a sample do not involve the solidity, so neither
      does the sum. */
  lemma {:induction false} TorqueSumIgnoresSolidity(phys: Physics, s: VAWTSolution, solidity: real, k: nat)
    requires SolutionWellFormed(s) && k <= |s.theta|
    ensures var s' := s.(case_ := s.case_.(solidity := solidity));
            SolutionWellFormed(s') && TorqueSum(phys, s', k) == TorqueSum(phys, s, k)
  {
    if k > 0 {
      TorqueSumIgnoresSolidity(phys, s, solidity, k - 1);
      SampleTorqueIgnoresSolidity(phys, s, solidity, k - 1);
    }
  }

  lemma SampleTorqueIgnoresSolidity(phys: Physics, s: VAWTSolution, solidity: real, i: nat)
    requires SolutionWellFormed(s) && i < |s.theta|
    ensures var s' := s.(case_ := s.case_.(solidity := solidity));
            SolutionWellFormed(s') && SampleTorque(phys, s', i) == SampleTorque(phys, s, i)
  {
    var s' := s.(case_ := s.case_.(solidity := solidity));
    var p := SampleAt(s, i);
    assert SampleAt(s', i) == p.(case_ := p.case_.(solidity := solidity));
    IgnoresSolidity(phys, p.tube, p.a, p.case_, solidity);
    assert SolutionW(phys.trig, SampleAt(s', i)) == SolutionW(phys.trig, p);
    assert SolutionCTan(phys, SampleAt(s', i)) == SolutionCTan(phys, p);
  }

  /** `c_torque` in terms of a known value of the sum. */
  lemma CTorqueFromSum(phys: Physics, s: VAWTSolution, sum: real)
    requires SolutionWellFormed(s) && TorqueSum(phys, s, |s.theta|) == sum
    ensures CTorqueSpec(phys, s) == s.case_.solidity * FDiv(sum, s.nStreamtubes as real)
  {
  }

  /** The torque coefficient is proportional to the solidity: it is zero
      for zero solidity, and scaling the solidity scales it. */
  lemma CTorqueLinearInSolidity(phys: Physics, s: VAWTSolution, solidity: real)
    requires SolutionWellFormed(s)
    ensures var s' := s.(case_ := s.case_.(solidity := solidity));
            var unit := s.(case_ := s.case_.(solidity := 1.0));
            SolutionWellFormed(s') && CTorqueSpec(phys, s') == solidity * CTorqueSpec(phys, unit)
  {
    var s' := s.(case_ := s.case_.(solidity := solidity));
    var unit := s.(case_ := s.case_.(solidity := 1.0));
    var sum := TorqueSum(phys, s, |s.theta|);
    TorqueSumIgnoresSolidity(phys, s, solidity, |s.theta|);
    CTorqueFromSum(phys, s', sum);
    TorqueSumIgnoresSolidity(phys, s, 1.0, |s.theta|);
    CTorqueFromSum(phys, unit, sum);
  }

  /** Scaling before or after the division gives the same quotient; the
      source scales the sum first. */
  lemma ScaledQuotient(x: real, m: real, n: real)
    ensures FDiv(x * m, n) == m * FDiv(x, n)
  {
    if n != 0.0 {
      assert x * m / n == m * (x / n);
    }
  }

  /** Dividing by the stray count instead of the number of samples changes
      the torque whenever the stray count differs from the real one and
      the summed torque is not zero. */
  lemma AsWrittenTorqueDiffers(phys: Physics, c: VAWTCase, n: uint32, theta: seq<real>, beta: seq<real>, a: seq<real>, a0: seq<real>, eps: real, indeterminate: uint32)
    requires |beta| == |theta| && |a| == |theta| && |a0| == |theta|
    requires n != 0 && indeterminate != 0 && indeterminate != n
    requires TorqueSum(phys, NewSolution(c, n, theta, beta, a, a0, eps), |theta|) != 0.0 && c.solidity != 0.0
    ensures CTorqueSpec(phys, NewSolutionAsWritten(c, n, theta, beta, a, a0, eps, indeterminate))
            != CTorqueSpec(phys, NewSolution(c, n, theta, beta, a, a0, eps))
  {
    var good := NewSolution(c, n, theta, beta, a, a0, eps);
    var bad := NewSolutionAsWritten(c, n, theta, beta, a, a0, eps, indeterminate);
    TorqueSumSameSamples(phys, good, bad, |theta|);
    DistinctCounts(phys, bad, good);
  }

  /** Two solutions with the same case and the same non-zero sum, but
      different non-zero counts, have different torque coefficients. */
  lemma DistinctCounts(phys: Physics, s: VAWTSolution, t: VAWTSolution)
    requires SolutionWellFormed(s) && SolutionWellFormed(t) && s.case_ == t.case_
    requires TorqueSum(phys, s, |s.theta|) == TorqueSum(phys, t, |t.theta|) != 0.0
    requires s.case_.solidity != 0.0 && s.nStreamtubes != 0 && t.nStreamtubes != 0
    requires s.nStreamtubes != t.nStreamtubes
    ensures CTorqueSpec(phys, s) != CTorqueSpec(phys, t)
  {
    var sum := TorqueSum(phys, s, |s.theta|);
    var ns, nt := s.nStreamtubes as real, t.nStreamtubes as real;
    DistinctDivisors(sum, ns, nt);
    ScaledDistinct(s.case_.solidity, FDiv(sum, ns), FDiv(sum, nt), CTorqueSpec(phys, s), CTorqueSpec(phys, t));
  }

  lemma DistinctDivisors(x: real, m: real, k: real)
    requires x != 0.0 && m != 0.0 && k != 0.0 && m != k
    ensures FDiv(x, m) != FDiv(x, k)
  {
    var q, r := x / m, x / k;
    assert q * m == x && r * k == x;
    assert q != 0.0;
    assert q * m != q * k;
  }

  lemma ScaledDistinct(c: real, q: real, r: real, u: real, v: real)
    requires c != 0.0 && q != r && u == c * q && v == c * r
    ensures u != v
  {
  }

  /** `c_torque` of a solution whose stored count is its number of samples:
      the solidity times the mean of `c_tan w^2` over the samples. */
  lemma CTorqueOfCounted(phys: Physics, s: VAWTSolution)
    requires SolutionWellFormed(s) && s.nStreamtubes as int == |s.theta|
    ensures CTorqueSpec(phys, s) == s.case_.solidity * FDiv(TorqueSum(phys, s, |s.theta|), |s.theta| as real)
  {
    assert s.nStreamtubes as real == |s.theta| as real;
  }

  /** Two solutions with the same case and samples have the same sum. */
  lemma {:induction false} TorqueSumSameSamples(phys: Physics, s: VAWTSolution, t: VAWTSolution, k: nat)
    requires SolutionWellFormed(s) && SolutionWellFormed(t) && k <= |s.theta|
    requires s.case_ == t.case_ && s.theta == t.theta && s.beta == t.beta && s.a == t.a && s.a0 == t.a0
    ensures TorqueSum(phys, s, k) == TorqueSum(phys, t, k)
  {
    if k > 0 {
      TorqueSumSameSamples(phys, s, t, k - 1);
      assert SampleAt(s, k - 1) == SampleAt(t, k - 1);
    }
  }

  /** `c_torque`: sum `c_tan * w^2` over the stored samples, then scale by
      `solidity / n_streamtubes`. */
  method CTorque(phys: Physics, s: VAWTSolution) returns (ct: real)
    requires SolutionWellFormed(s)
    ensures ct == CTorqueSpec(phys, s)
  {
    var sum := 0.0;
    for i := 0 to |s.theta|
      invariant sum == TorqueSum(phys, s, i)
    {
      sum := sum + SampleTorque(phys, s, i);
    }
    ScaledQuotient(sum, s.case_.solidity, s.nStreamtubes as real);
    ct := FDiv(sum * s.case_.solidity, s.nStreamtubes as real);
  }

  /** `c_power`: the torque coefficient times the tip-speed ratio. */
  method CPower(phys: Physics, s: VAWTSolution) returns (cp: real)
    requires SolutionWellFormed(s)
    ensures cp == CTorqueSpec(phys, s) * s.case_.tsr
  {
    var ct := CTorque(phys, s);
    cp := ct * s.case_.tsr;
  }

  // ---------------------------------------------------------------------------
  // VAWTSolver
  // ---------------------------------------------------------------------------

  /** `VAWTSolver`: the aerofoil and the turbine settings, set fluently. */
  class VAWTSolver {
    var aerofoil: Aerofoil
    var nStreamtubes: uint32
    var tsr: real
    var re: real
    var solidity: real
    var epsilon: real

    /** The streamtube count is even. */
    ghost predicate Valid()
      reads this
    {
      nStreamtubes % 2 == 0
    }

    /** A solver with the defaults: 50 streamtubes, tip-speed ratio 2,
        Reynolds number 60 000, solidity 0.1, accuracy 0.01. */
    constructor(aerofoil: Aerofoil)
      ensures Valid()
      ensures this.aerofoil == aerofoil && nStreamtubes == 50 && tsr == 2.0
      ensures re == 60000.0 && solidity == 0.1 && epsilon == 0.01
    {
      this.aerofoil := aerofoil;
      nStreamtubes := 50;
      tsr := 2.0;
      re := 60000.0;
      solidity := 0.1;
      epsilon := 0.01;
    }

    /** `n_streamtubes(n)`: store `n` rounded up to even. */
    method NStreamtubes(n: uint32) returns (self: VAWTSolver)
      modifies this`nStreamtubes
      ensures self == this && nStreamtubes == RoundUpToEven(n) && Valid()
    {
      var m := n;
      if m % 2 != 0 {
        m := ((m as int + 1) % 0x1_0000_0000) as uint32;
      }
      nStreamtubes := m;
      RoundUpToEvenProperties(n);
      self := this;
    }

    /** `tsr(tsr)` */
    method Tsr(value: real) returns (self: VAWTSolver)
      modifies this`tsr
      ensures self == this && tsr == value
    {
      tsr := value;
      self := this;
    }

    /** `re(re)` */
    method Re(value: real) returns (self: VAWTSolver)
      modifies this`re
      ensures self == this && re == value
    {
      re := value;
      self := this;
    }

    /** `solidity(solidity)` */
    method Solidity(value: real) returns (self: VAWTSolver)
      modifies this`solidity
      ensures self == this && solidity == value
    {
      solidity := value;
      self := this;
    }

    /** `epsilon(epsilon)` */
    method Epsilon(value: real) returns (self: VAWTSolver)
      modifies this`epsilon
      ensures self == this && epsilon == value
    {
      epsilon := value;
      self := this;
    }

    /** `get_case`: the solver's settings as a case. The ensures only name
        the copied fields; the solves built on it are proved in
        `PitchedSolution` and `ConstantPitchSolution`. */
    function GetCase(): (c: VAWTCase)
      reads this
      ensures c.re == re && c.tsr == tsr && c.solidity == solidity && c.aerofoil == aerofoil
    {
      VAWTCase(re, tsr, solidity, aerofoil)
    }

    /** `map_streamtubes`: lay out the positions, then solve the pairs
        `i <-> n - 1 - i` for `i < n / 2`, storing each pair's results in
        place. */
    method MapStreamtubes(solveFn: PairSolver) returns (sol: VAWTSolution)
      ensures sol == MappedSolution(GetCase(), nStreamtubes, epsilon, solveFn)
    {
      var n := nStreamtubes;
      var dtHalf := FDiv(Pi, n as real);
      var theta := new real[n];
      var beta := new real[n](_ => 0.0);
      var a := new real[n](_ => 0.0);
      var a0 := new real[n](_ => 0.0);
      // std::generate: dtHalf, then steps of 2 dtHalf
      var current := dtHalf;
      for k := 0 to n
        modifies theta
        invariant current == (2 * k + 1) as real * dtHalf
        invariant forall j :: 0 <= j < k ==> theta[j] == ThetaAt(n, j)
      {
        theta[k] := current;
        current := current + 2.0 * dtHalf;
      }
      var c := GetCase();
      for i := 0 to n / 2
        invariant forall j :: 0 <= j < n ==> theta[j] == ThetaAt(n, j)
        invariant forall j :: 0 <= j < n ==>
                    beta[j] == BetaAfter(c, n, solveFn, i, j) && a[j] == AAfter(c, n, solveFn, i, j)
                    && a0[j] == A0After(c, n, solveFn, i, j)
      {
        var iDown := n - 1 - i;
        var r := solveFn(c, theta[i], theta[iDown]);
        assert r == PairAt(c, n, solveFn, i);
        beta[i] := r.betaUp;
        beta[iDown] := r.betaDown;
        a[i] := r.aUp;
        a[iDown] := r.aDown;
        a0[iDown] := r.aUp;
        forall j | 0 <= j < n
          ensures beta[j] == BetaAfter(c, n, solveFn, i + 1, j) && a[j] == AAfter(c, n, solveFn, i + 1, j)
                  && a0[j] == A0After(c, n, solveFn, i + 1, j)
        {
          AfterStep(c, n, solveFn, i, j);
        }
      }
      MappedFromArrays(c, n, epsilon, solveFn, theta[..], beta[..], a[..], a0[..]);
      sol := NewSolution(c, n, theta[..], beta[..], a[..], a0[..], epsilon);
    }

    /** `solve(beta)`: every tube at the same pitch. */
    method Solve(phys: Physics, beta: real) returns (sol: VAWTSolution)
      requires Valid() && epsilon > 0.0
      ensures sol == MappedSolution(GetCase(), nStreamtubes, epsilon, PairSolverFor(TubeSolverFor(phys, epsilon), _ => beta))
      ensures |sol.beta| == nStreamtubes as int && forall k :: 0 <= k < |sol.beta| ==> sol.beta[k] == beta
    {
      sol := SolveWith(phys, _ => beta);
    }

    /** `solve(beta_fn)`, with each tube's pitch read at its own position:
        the upstream half is solved with `a_0 = 0`, and each downstream
        tube with its partner's induction factor as `a_0`. */
    method SolveWith(phys: Physics, pitch: real -> real) returns (sol: VAWTSolution)
      requires Valid() && epsilon > 0.0
      ensures sol == MappedSolution(GetCase(), nStreamtubes, epsilon, PairSolverFor(TubeSolverFor(phys, epsilon), pitch))
      ensures SolutionWellFormed(sol) && |sol.theta| == nStreamtubes as int
      ensures forall k :: 0 <= k < |sol.theta| ==> sol.beta[k] == pitch(sol.theta[k])
      ensures forall k :: 0 <= k < |sol.theta| / 2 ==>
                sol.a0[k] == 0.0 && sol.a[k] == SolveTube(phys, StreamTube(sol.theta[k], sol.beta[k], 0.0), GetCase(), epsilon)
      ensures forall k :: |sol.theta| / 2 <= k < |sol.theta| ==>
                sol.a0[k] == sol.a[|sol.theta| - 1 - k]
                && sol.a[k] == SolveTube(phys, StreamTube(sol.theta[k], sol.beta[k], sol.a0[k]), GetCase(), epsilon)
    {
      var solveA := TubeSolverFor(phys, epsilon);
      sol := MapStreamtubes(PairSolverFor(solveA, pitch));
      var n := nStreamtubes;
      forall k | 0 <= k < n
        ensures sol.beta[k] == pitch(sol.theta[k])
        ensures k < n / 2 ==> sol.a0[k] == 0.0 && sol.a[k] == solveA(GetCase(), StreamTube(sol.theta[k], sol.beta[k], 0.0))
        ensures n / 2 <= k ==>
                  sol.a0[k] == sol.a[n - 1 - k]
                  && sol.a[k] == solveA(GetCase(), StreamTube(sol.theta[k], sol.beta[k], sol.a0[k]))
      {
        PitchedSolution(solveA, pitch, GetCase(), n, epsilon, k);
      }
    }
  }
}
