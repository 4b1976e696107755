// The 2-D rotation helper shared by the streamtube physics
// (vawt/private_stuff.hpp).

module Rotation {
  import opened Numerics

  /** `rot_vec`: the vector (x, y) rotated about the origin by `alpha`. */
  function RotVec(t: Trig, x: real, y: real, alpha: real): (real, real)
  {
    (t.cos(alpha) * x + t.sin(-alpha) * y, t.sin(alpha) * x + t.cos(alpha) * y)
  }

  /** The origin is a fixed point of every rotation. */
  lemma RotVecOfOrigin(t: Trig, alpha: real)
    ensures RotVec(t, 0.0, 0.0, alpha) == (0.0, 0.0)
  {
  }

  /** Rotation is linear: rotating a difference is the difference of the rotations. */
  lemma RotVecLinear(t: Trig, x1: real, y1: real, x2: real, y2: real, alpha: real)
    ensures RotVec(t, x1 - x2, y1 - y2, alpha).0 == RotVec(t, x1, y1, alpha).0 - RotVec(t, x2, y2, alpha).0
    ensures RotVec(t, x1 - x2, y1 - y2, alpha).1 == RotVec(t, x1, y1, alpha).1 - RotVec(t, x2, y2, alpha).1
  {
    var c, s, sn := t.cos(alpha), t.sin(alpha), t.sin(-alpha);
    assert c * (x1 - x2) == c * x1 - c * x2;
    assert sn * (y1 - y2) == sn * y1 - sn * y2;
    assert s * (x1 - x2) == s * x1 - s * x2;
    assert c * (y1 - y2) == c * y1 - c * y2;
  }

  /**
   * With sine odd and sin^2 + cos^2 = 1 at `alpha`, `rot_vec` keeps the
   * squared length of the vector, as a rotation should.
   */
  lemma RotVecPreservesNorm(t: Trig, x: real, y: real, alpha: real)
    requires t.sin(-alpha) == -t.sin(alpha)
    requires t.sin(alpha) * t.sin(alpha) + t.cos(alpha) * t.cos(alpha) == 1.0
    ensures var (u, v) := RotVec(t, x, y, alpha); u * u + v * v == x * x + y * y
  {
    var c, s := t.cos(alpha), t.sin(alpha);
    var (u, v) := RotVec(t, x, y, alpha);
    assert u == c * x - s * y;
    assert v == s * x + c * y;
    calc {
      u * u + v * v;
      (c * x - s * y) * (c * x - s * y) + (s * x + c * y) * (s * x + c * y);
      (c * c + s * s) * (x * x) + (c * c + s * s) * (y * y);
      x * x + y * y;
    }
  }

  /** With cos 0 = 1 and sin 0 = 0, rotation by zero is the identity. */
  lemma RotVecByZero(t: Trig, x: real, y: real)
    requires t.cos(0.0) == 1.0 && t.sin(0.0) == 0.0
    ensures RotVec(t, x, y, 0.0) == (x, y)
  {
    assert -0.0 == 0.0;
    var r := RotVec(t, x, y, 0.0);
    assert r.0 == x && r.1 == y;
  }
}
