// One streamtube of the double-multiple-streamtube model (vawt/streamtube.hpp,
// vawt/streamtube.cpp): the velocity triangle at the blade, the foil and
// momentum thrust laws, and the solver for the induction factor `a`.

module StreamTubes {
  import opened Numerics
  import opened Rotation
  import opened AerofoilData

  /** `ClCd`: lift and drag coefficients. */
  datatype ClCd = ClCd(cl: real, cd: real)

  /**
   * The aerodynamic collaborators whose definitions are not part of this
   * model, passed in as functions: the maths library, `Aerofoil::cl_cd`
   * (alpha, re), `ClCd::to_tangential` (alpha, beta) giving (normal,
   * tangential) and `ClCd::to_global` (alpha, beta, theta) giving (x, y).
   */
  datatype Physics = Physics(
    trig: Trig,
    clCd: (Aerofoil, real, real) -> ClCd,
    toTangential: (ClCd, real, real) -> (real, real),
    toGlobal: (ClCd, real, real, real) -> (real, real))

  /** `VAWTCase`: the turbine settings one solve works with. */
  datatype VAWTCase = VAWTCase(re: real, tsr: real, solidity: real, aerofoil: Aerofoil)

  /** `StreamTube`: position angle, pitch angle and upstream induction factor. */
  datatype StreamTube = StreamTube(theta: real, beta: real, a0: real)

  /** `StreamTube::Velocity`, in global x/y coordinates. */
  datatype Velocity = Velocity(x: real, y: real)

  // ---------------------------------------------------------------------------
  // Velocity
  // ---------------------------------------------------------------------------

  /** `Velocity::operator-`, component by component. */
  function Minus(v: Velocity, w: Velocity): (d: Velocity)
    ensures d.x + w.x == v.x && d.y + w.y == v.y
  {
    Velocity(v.x - w.x, v.y - w.y)
  }

  /** `Velocity::from_tangetial`: a vector given in the blade's tangential
      frame, rotated by `theta` into global coordinates. */
  function FromTangential(t: Trig, x: real, y: real, theta: real): Velocity
  {
    var (u, v) := RotVec(t, x, y, theta);
    Velocity(u, v)
  }

  /** `Velocity::to_foil`: the vector in the foil's frame, a rotation by
      `-theta - beta`. */
  function ToFoil(t: Trig, v: Velocity, theta: real, beta: real): (real, real)
  {
    RotVec(t, v.x, v.y, -theta - beta)
  }

  /** `Velocity::magnitude` */
  function Magnitude(t: Trig, v: Velocity): real
  {
    t.sqrt(Sq(v.x) + Sq(v.y))
  }

  /** Changing to the foil frame commutes with subtraction: the relative
      velocity may be formed in either frame. */
  lemma ToFoilOfDifference(t: Trig, v: Velocity, w: Velocity, theta: real, beta: real)
    ensures ToFoil(t, Minus(v, w), theta, beta).0 == ToFoil(t, v, theta, beta).0 - ToFoil(t, w, theta, beta).0
    ensures ToFoil(t, Minus(v, w), theta, beta).1 == ToFoil(t, v, theta, beta).1 - ToFoil(t, w, theta, beta).1
  {
    RotVecLinear(t, v.x, v.y, w.x, w.y, -theta - beta);
  }

  /** Given the rotation identities at `-theta - beta`, the speed seen in the
      foil frame is the global speed. */
  lemma ToFoilKeepsMagnitude(t: Trig, v: Velocity, theta: real, beta: real)
    requires t.sin(-(-theta - beta)) == -t.sin(-theta - beta)
    requires t.sin(-theta - beta) * t.sin(-theta - beta) + t.cos(-theta - beta) * t.cos(-theta - beta) == 1.0
    ensures var (u, w) := ToFoil(t, v, theta, beta); Magnitude(t, Velocity(u, w)) == Magnitude(t, v)
  {
    RotVecPreservesNorm(t, v.x, v.y, -theta - beta);
    var (u, w) := ToFoil(t, v, theta, beta);
    assert Sq(u) + Sq(w) == Sq(v.x) + Sq(v.y);
  }

  // ---------------------------------------------------------------------------
  // The velocity triangle
  // ---------------------------------------------------------------------------

  /** `c_0`: the reference wind speed, slowed by the upstream tube. */
  function C0(tube: StreamTube): (c: real)
    ensures tube.a0 == (1.0 - c) / 2.0
  {
    1.0 - 2.0 * tube.a0
  }

  /** `c_1_vec`: the wind at the foil, pointing along -y. */
  function C1Vec(tube: StreamTube, a: real): (v: Velocity)
    ensures v.x == 0.0
    ensures a == 1.0 ==> v == Velocity(0.0, 0.0)
    ensures a < 1.0 && C0(tube) > 0.0 ==> v.y < 0.0
  {
    Velocity(0.0, -C0(tube) * (1.0 - a))
  }

  /** `w_vec`: the wind at the foil minus the blade's own motion
      (speed `tsr`, tangential). */
  function WVec(t: Trig, tube: StreamTube, a: real, case_: VAWTCase): Velocity
  {
    Minus(C1Vec(tube, a), FromTangential(t, 0.0, case_.tsr, tube.theta))
  }

  /** With sine odd at `theta`, the relative velocity is
      (tsr sin(theta), -c_0 (1 - a) - tsr cos(theta)). */
  lemma WVecComponents(t: Trig, tube: StreamTube, a: real, case_: VAWTCase)
    requires t.sin(-tube.theta) == -t.sin(tube.theta)
    ensures WVec(t, tube, a, case_) ==
              Velocity(case_.tsr * t.sin(tube.theta), -C0(tube) * (1.0 - a) - case_.tsr * t.cos(tube.theta))
  {
    var s, c, r := t.sin(tube.theta), t.cos(tube.theta), case_.tsr;
    var blade := FromTangential(t, 0.0, r, tube.theta);
    assert blade == Velocity(c * 0.0 + t.sin(-tube.theta) * r, s * 0.0 + c * r);
    assert blade == Velocity(-(r * s), r * c);
  }

  /** When the wind is fully stopped (`a = 1`), the relative speed is the
      blade speed alone: |w|^2 = tsr^2, given sin^2 + cos^2 = 1 at `theta`. */
  lemma WVecAtFullStop(t: Trig, tube: StreamTube, case_: VAWTCase)
    requires t.sin(-tube.theta) == -t.sin(tube.theta)
    requires t.sin(tube.theta) * t.sin(tube.theta) + t.cos(tube.theta) * t.cos(tube.theta) == 1.0
    ensures var w := WVec(t, tube, 1.0, case_); Sq(w.x) + Sq(w.y) == Sq(case_.tsr)
  {
    var s, c, r := t.sin(tube.theta), t.cos(tube.theta), case_.tsr;
    WVecComponents(t, tube, 1.0, case_);
    calc {
      Sq(r * s) + Sq(-C0(tube) * (1.0 - 1.0) - r * c);
      (r * r) * (s * s) + (r * r) * (c * c);
      (r * r) * (s * s + c * c);
      r * r;
    }
  }

  /** `w_alpha_re`: the relative speed, the angle of attack (the foil-frame
      direction of `w` plus pi/2) and the local Reynolds number. */
  function WAlphaRe(t: Trig, tube: StreamTube, a: real, case_: VAWTCase): (r: (real, real, real))
    ensures r.2 == case_.re * r.0
  {
    var w := WVec(t, tube, a, case_);
    var (wx, wy) := ToFoil(t, w, tube.theta, tube.beta);
    (Magnitude(t, w), t.atan2(wy, wx) + Pi / 2.0, case_.re * Magnitude(t, w))
  }

  /** `c_tan`: the tangential force coefficient at the angle of attack and
      local Reynolds number of `a`. */
  function CTan(phys: Physics, tube: StreamTube, a: real, case_: VAWTCase): real
  {
    var (w, alpha, re) := WAlphaRe(phys.trig, tube, a, case_);
    phys.toTangential(phys.clCd(case_.aerofoil, alpha, re), alpha, tube.beta).1
  }

  /** The y component of the foil force coefficient at `a`. */
  function ForceY(phys: Physics, tube: StreamTube, a: real, case_: VAWTCase): real
  {
    var (w, alpha, re) := WAlphaRe(phys.trig, tube, a, case_);
    phys.toGlobal(phys.clCd(case_.aerofoil, alpha, re), alpha, tube.beta, tube.theta).1
  }

  /** `foil_thrust`: `-Fy (w / c_0)^2 solidity / (pi |sin(theta)|)`. */
  function FoilThrust(phys: Physics, tube: StreamTube, a: real, case_: VAWTCase): real
  {
    var w := WAlphaRe(phys.trig, tube, a, case_).0;
    var fy := ForceY(phys, tube, a, case_);
    FDiv(-fy * Sq(FDiv(w, C0(tube))) * case_.solidity, Pi * Abs(phys.trig.sin(tube.theta)))
  }

  /** With a non-zero reference speed and the tube off the rotor axis, the
      foil thrust is the blade force scaled by solidity: zero for zero
      solidity, and for positive solidity and non-zero speed of the sign
      opposite to `Fy`. (In double arithmetic a zero `c_0` or `sin(theta)`
      would give an infinity or a NaN instead.) */
  lemma FoilThrustScaling(phys: Physics, tube: StreamTube, a: real, case_: VAWTCase)
    requires C0(tube) != 0.0 && phys.trig.sin(tube.theta) != 0.0
    ensures var ft := FoilThrust(phys, tube, a, case_);
            var w := WAlphaRe(phys.trig, tube, a, case_).0;
            var fy := ForceY(phys, tube, a, case_);
            && ft * (Pi * Abs(phys.trig.sin(tube.theta))) == -fy * Sq(w / C0(tube)) * case_.solidity
            && (case_.solidity == 0.0 ==> ft == 0.0)
            && (case_.solidity > 0.0 && w != 0.0 ==> (ft > 0.0 <==> fy < 0.0))
  {
    var w := WAlphaRe(phys.trig, tube, a, case_).0;
    var fy := ForceY(phys, tube, a, case_);
    var den := Pi * Abs(phys.trig.sin(tube.theta));
    assert den > 0.0;
    var q := Sq(w / C0(tube));
    var num := -fy * q * case_.solidity;
    assert FDiv(num, den) == num / den;
    if case_.solidity > 0.0 && w != 0.0 {
      assert w / C0(tube) != 0.0;
      assert q > 0.0;
      assert num > 0.0 <==> fy < 0.0 by {
        assert num == -(fy * (q * case_.solidity));
        assert q * case_.solidity > 0.0;
      }
    }
  }

  /** The relative velocity, and with it `w_alpha_re` and `c_tan`, depend
      on the tip-speed ratio, the Reynolds number and the aerofoil of the
      case but not on its solidity. */
  lemma IgnoresSolidity(phys: Physics, tube: StreamTube, a: real, case_: VAWTCase, solidity: real)
    ensures var c := case_.(solidity := solidity);
            && WAlphaRe(phys.trig, tube, a, c) == WAlphaRe(phys.trig, tube, a, case_)
            && CTan(phys, tube, a, c) == CTan(phys, tube, a, case_)
  {
    var c := case_.(solidity := solidity);
    var w := WVec(phys.trig, tube, a, case_);
    assert WVec(phys.trig, tube, a, c) == w;
    var r, r' := WAlphaRe(phys.trig, tube, a, case_), WAlphaRe(phys.trig, tube, a, c);
    assert r'.0 == r.0 && r'.1 == r.1 && r'.2 == r.2;
  }

  /** `wind_thrust`: momentum theory `4a(1 - a)` below 0.4, Glauert's
      straight-line approximation above. */
  function WindThrust(a: real): real
  {
    if a < 0.4 then 4.0 * a * (1.0 - a) else 26.0 / 15.0 * a + 4.0 / 15.0
  }

  /** The two branches meet at 0.96 for `a = 0.4`, and the line reaches 2.0
      at `a = 1`. */
  lemma WindThrustJoins()
    ensures 4.0 * 0.4 * (1.0 - 0.4) == 0.96 == WindThrust(0.4)
    ensures WindThrust(1.0) == 2.0
  {
  }

  /** The thrust law never decreases in `a`. */
  lemma WindThrustMonotone(a: real, b: real)
    requires a <= b
    ensures WindThrust(a) <= WindThrust(b)
  {
    if b < 0.4 {
      assert 4.0 * b * (1.0 - b) - 4.0 * a * (1.0 - a) == 4.0 * (b - a) * (1.0 - a - b);
      NonNegativeProduct(b - a, 1.0 - a - b);
    } else if a < 0.4 {
      assert 4.0 * a * (1.0 - a) == 0.96 - 4.0 * (0.4 - a) * (0.6 - a);
      NonNegativeProduct(0.4 - a, 0.6 - a);
    }
  }

  lemma NonNegativeProduct(x: real, y: real)
    requires x >= 0.0 && y >= 0.0
    ensures x * y >= 0.0
  {
  }

  /** On [0, 1] the thrust coefficient lies in [0, 2]. */
  lemma WindThrustRange(a: real)
    requires 0.0 <= a <= 1.0
    ensures 0.0 <= WindThrust(a) <= 2.0
  {
    WindThrustMonotone(0.0, a);
    WindThrustMonotone(a, 1.0);
  }

  /** `thrust_error`: foil thrust minus wind thrust. */
  function ThrustError(phys: Physics, tube: StreamTube, a: real, case_: VAWTCase): real
  {
    FoilThrust(phys, tube, a, case_) - WindThrust(a)
  }

  /** The residual of one streamtube as a function of `a`. */
  function Residual(phys: Physics, tube: StreamTube, case_: VAWTCase): real -> real
  {
    a => ThrustError(phys, tube, a, case_)
  }

  // ---------------------------------------------------------------------------
  // The fixed-point fallback (a_strickland)
  // ---------------------------------------------------------------------------

  /** One update of `a_strickland`: `0.25 c_s + a^2`, clamped to at most 1. */
  function StricklandStep(phys: Physics, tube: StreamTube, case_: VAWTCase, a: real): real
  {
    var aNew := 0.25 * FoilThrust(phys, tube, a, case_) + Sq(a);
    if aNew < 1.0 then aNew else 1.0
  }

  /** The iterate after `k` updates, starting from 0. */
  function StricklandIterate(phys: Physics, tube: StreamTube, case_: VAWTCase, k: nat): real
  {
    if k == 0 then 0.0 else StricklandStep(phys, tube, case_, StricklandIterate(phys, tube, case_, k - 1))
  }

  /** Every update stays at or below 1; there is no clamp from below, so a
      negative foil thrust at `a = 0` sends the first iterate below zero. */
  lemma StricklandClamp(phys: Physics, tube: StreamTube, case_: VAWTCase, a: real)
    ensures StricklandStep(phys, tube, case_, a) <= 1.0
    ensures a == 0.0 && FoilThrust(phys, tube, a, case_) < 0.0 ==> StricklandStep(phys, tube, case_, a) < 0.0
  {
  }

  /** An unclamped fixed point of the update solves the momentum equation
      `4a(1 - a) = c_s`: below 0.4 it is an exact root of `thrust_error`. */
  lemma StricklandFixedPointIsRoot(phys: Physics, tube: StreamTube, case_: VAWTCase, a: real)
    requires StricklandStep(phys, tube, case_, a) == a && a < 1.0
    ensures 4.0 * a * (1.0 - a) == FoilThrust(phys, tube, a, case_)
    ensures a < 0.4 ==> ThrustError(phys, tube, a, case_) == 0.0
  {
    var cs := FoilThrust(phys, tube, a, case_);
    assert 0.25 * cs + a * a == a;
  }

  /** `a_strickland`: ten clamped updates from `a = 0`. */
  method AStrickland(phys: Physics, tube: StreamTube, case_: VAWTCase) returns (a: real)
    ensures a == StricklandIterate(phys, tube, case_, 10)
    ensures a <= 1.0
  {
    a := 0.0;
    for i := 0 to 10
      invariant a == StricklandIterate(phys, tube, case_, i)
    {
      var cs := FoilThrust(phys, tube, a, case_);
      var aNew := 0.25 * cs + Sq(a);
      if aNew < 1.0 {
        a := aNew;
      } else {
        a := 1.0;
      }
    }
  }

  // ---------------------------------------------------------------------------
  // Bisection (solve_a)
  // ---------------------------------------------------------------------------

  /** The number of whole `eps` a bracket of this width spans: the
      bisection's termination measure. */
  function Steps(width: real, eps: real): nat
    requires eps > 0.0
  {
    if width > eps then (width / eps).Floor else 0
  }

  /** Halving a width above `eps` lowers the measure. */
  lemma HalvingShrinks(width: real, eps: real)
    requires eps > 0.0 && width > eps
    ensures Steps(width / 2.0, eps) < Steps(width, eps)
  {
    var x := width / eps;
    assert width / 2.0 / eps == x / 2.0;
    assert x > 1.0;
    var n := x.Floor;
    assert n >= 1;
    assert (x / 2.0).Floor as real <= x / 2.0 < (n as real + 1.0) / 2.0 <= n as real;
  }

  /** The bracket the bisection loop ends with, starting from [lo, hi] with
      `f(lo) = errLeft`: halve while wider than `eps`, keeping the half where
      `f(lo) * f(mid) <= 0`. */
  function Bisect(f: real -> real, lo: real, hi: real, errLeft: real, eps: real): (real, real)
    requires eps > 0.0
    decreases Steps(hi - lo, eps)
  {
    if hi - lo > eps then
      var mid := lo + (hi - lo) / 2.0;
      var err := f(mid);
      HalvingShrinks(hi - lo, eps);
      assert hi - mid == mid - lo == (hi - lo) / 2.0;
      if errLeft * err <= 0.0 then Bisect(f, lo, mid, errLeft, eps)
      else Bisect(f, mid, hi, err, eps)
    else (lo, hi)
  }

  /** One halving step of the bisection, as the loop takes it. */
  lemma BisectStep(f: real -> real, lo: real, hi: real, errLeft: real, eps: real)
    requires eps > 0.0 && hi - lo > eps
    ensures var mid := lo + (hi - lo) / 2.0;
            Bisect(f, lo, hi, errLeft, eps)
            == if errLeft * f(mid) <= 0.0 then Bisect(f, lo, mid, errLeft, eps) else Bisect(f, mid, hi, f(mid), eps)
  {
  }

  /** What `solve_a` returns for residual `f`: the fixed-point fallback when
      f(-2) and f(2) have the same strict sign, else the midpoint of the
      final bracket. */
  function SolveASpec(f: real -> real, eps: real, fallback: real): real
    requires eps > 0.0
  {
    if f(-2.0) * f(2.0) > 0.0 then fallback
    else
      var (lo, hi) := Bisect(f, -2.0, 2.0, f(-2.0), eps);
      lo + (hi - lo) / 2.0
  }

  /** `x` and `y` are not of the same strict sign. */
  predicate SignChange(x: real, y: real)
  {
    (x <= 0.0 && y >= 0.0) || (x >= 0.0 && y <= 0.0)
  }

  /** The source's product test `x * y <= 0` is exactly a sign change. */
  lemma ProductSign(x: real, y: real)
    ensures x * y <= 0.0 <==> SignChange(x, y)
  {
    if x > 0.0 && y > 0.0 {
      assert x * y > 0.0;
    } else if x < 0.0 && y < 0.0 {
      assert x * y == (-x) * (-y);
      assert (-x) * (-y) > 0.0;
    } else if x >= 0.0 && y <= 0.0 {
      assert x * (-y) >= 0.0;
    } else {
      assert (-x) * y >= 0.0;
    }
  }

  /** From a bracket with a sign change, bisection ends with a sub-bracket
      no wider than `eps` (and no wider than it started) that still has a
      sign change. */
  lemma {:induction false} BisectKeepsSignChange(f: real -> real, lo: real, hi: real, errLeft: real, eps: real)
    requires eps > 0.0 && lo < hi && errLeft == f(lo) && SignChange(errLeft, f(hi))
    ensures var r := Bisect(f, lo, hi, errLeft, eps);
            && lo <= r.0 < r.1 <= hi
            && r.1 - r.0 <= eps
            && SignChange(f(r.0), f(r.1))
    decreases Steps(hi - lo, eps)
  {
    if hi - lo > eps {
      var mid := lo + (hi - lo) / 2.0;
      var err := f(mid);
      HalvingShrinks(hi - lo, eps);
      assert hi - mid == mid - lo == (hi - lo) / 2.0;
      ProductSign(errLeft, err);
      if errLeft * err <= 0.0 {
        assert Bisect(f, lo, hi, errLeft, eps) == Bisect(f, lo, mid, errLeft, eps);
        BisectKeepsSignChange(f, lo, mid, errLeft, eps);
      } else {
        assert Bisect(f, lo, hi, errLeft, eps) == Bisect(f, mid, hi, err, eps);
        BisectKeepsSignChange(f, mid, hi, err, eps);
      }
    }
  }

  /** Unless it falls back, `solve_a` returns a point of [-2, 2] within
      `eps / 2` of both ends of a bracket across which `f` changes sign. */
  lemma SolveABracket(f: real -> real, eps: real, fallback: real)
    requires eps > 0.0
    ensures f(-2.0) * f(2.0) > 0.0 ==> SolveASpec(f, eps, fallback) == fallback
    ensures f(-2.0) * f(2.0) <= 0.0 ==>
              var a := SolveASpec(f, eps, fallback);
              var (l, h) := Bisect(f, -2.0, 2.0, f(-2.0), eps);
              && -2.0 <= l <= a <= h <= 2.0
              && a - l <= eps / 2.0 && h - a <= eps / 2.0
              && f(l) * f(h) <= 0.0
  {
    if f(-2.0) * f(2.0) <= 0.0 {
      ProductSign(f(-2.0), f(2.0));
      BisectKeepsSignChange(f, -2.0, 2.0, f(-2.0), eps);
      var (l, h) := Bisect(f, -2.0, 2.0, f(-2.0), eps);
      ProductSign(f(l), f(h));
    }
  }

  /** `solve_a`: bisection for a root of `thrust_error` on [-2, 2], falling
      back to `a_strickland` when the ends do not bracket a sign change. */
  method SolveA(phys: Physics, tube: StreamTube, case_: VAWTCase, eps: real) returns (a: real)
    requires eps > 0.0
    ensures a == SolveASpec(Residual(phys, tube, case_), eps, StricklandIterate(phys, tube, case_, 10))
  {
    var f := Residual(phys, tube, case_);
    var errLeft := f(-2.0);
    var errRight := f(2.0);
    if errLeft * errRight > 0.0 {
      a := AStrickland(phys, tube, case_);
      return;
    }
    ProductSign(errLeft, errRight);
    a := BisectionLoop(f, eps, errLeft, errRight);
  }

  /** The loop of `solve_a`: halve [-2, 2] while it is wider than `eps`,
      keeping a sign change of the residual between the ends, and return
      the midpoint. */
  method BisectionLoop(f: real -> real, eps: real, errLeft0: real, errRight0: real) returns (a: real)
    requires eps > 0.0
    requires errLeft0 == f(-2.0) && errRight0 == f(2.0) && SignChange(errLeft0, errRight0)
    ensures var r := Bisect(f, -2.0, 2.0, f(-2.0), eps); a == r.0 + (r.1 - r.0) / 2.0
  {
    var aLeft, aRight := -2.0, 2.0;
    var errLeft, errRight := errLeft0, errRight0;
    while aRight - aLeft > eps
      invariant -2.0 <= aLeft < aRight <= 2.0
      invariant errLeft == f(aLeft) && errRight == f(aRight)
      invariant SignChange(errLeft, errRight)
      invariant Bisect(f, aLeft, aRight, errLeft, eps) == Bisect(f, -2.0, 2.0, f(-2.0), eps)
      decreases Steps(aRight - aLeft, eps)
    {
      var mid := aLeft + (aRight - aLeft) / 2.0;
      var err := f(mid);
      HalvingShrinks(aRight - aLeft, eps);
      assert aRight - mid == mid - aLeft == (aRight - aLeft) / 2.0;
      ProductSign(errLeft, err);
      BisectStep(f, aLeft, aRight, errLeft, eps);
      if errLeft * err <= 0.0 {
        aRight := mid;
        errRight := err;
      } else {
        aLeft := mid;
        errLeft := err;
      }
    }
    a := aLeft + (aRight - aLeft) / 2.0;
  }

  // ---------------------------------------------------------------------------
  // StreamTubeSolution
  // ---------------------------------------------------------------------------

  /** `StreamTubeSolution`: a tube, the case it was solved for, and its `a`. */
  datatype StreamTubeSolution = StreamTubeSolution(case_: VAWTCase, tube: StreamTube, a: real)

  /** `StreamTubeSolution::w`: the relative speed at the solution's `a`. */
  function SolutionW(t: Trig, s: StreamTubeSolution): real
  {
    Magnitude(t, WVec(t, s.tube, s.a, s.case_))
  }

  /** `StreamTubeSolution::alpha` */
  function SolutionAlpha(t: Trig, s: StreamTubeSolution): real
  {
    var (wx, wy) := ToFoil(t, WVec(t, s.tube, s.a, s.case_), s.tube.theta, s.tube.beta);
    t.atan2(wy, wx) + Pi / 2.0
  }

  /** `StreamTubeSolution::re`: `w() * case.re`. */
  function SolutionRe(t: Trig, s: StreamTubeSolution): real
  {
    SolutionW(t, s) * s.case_.re
  }

  /** `StreamTubeSolution::thrust_error` */
  function SolutionThrustError(phys: Physics, s: StreamTubeSolution): real
  {
    ThrustError(phys, s.tube, s.a, s.case_)
  }

  /** `StreamTubeSolution::c_tan` */
  function SolutionCTan(phys: Physics, s: StreamTubeSolution): real
  {
    CTan(phys, s.tube, s.a, s.case_)
  }

  /** The solution's accessors return what it was built from, and its speed,
      angle of attack and Reynolds number are the triple `w_alpha_re` gives
      for the tube at its `a`; in particular `re = w * case.re`. */
  lemma SolutionAgreesWithTube(t: Trig, case_: VAWTCase, theta: real, beta: real, a0: real, a: real)
    ensures var s := StreamTubeSolution(case_, StreamTube(theta, beta, a0), a);
            var r := WAlphaRe(t, s.tube, a, case_);
            && s.a == a && s.tube.a0 == a0 && s.tube.beta == beta && s.tube.theta == theta
            && SolutionW(t, s) == r.0 && SolutionAlpha(t, s) == r.1 && SolutionRe(t, s) == r.2
            && SolutionRe(t, s) == SolutionW(t, s) * case_.re
  {
  }
}
