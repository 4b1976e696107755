// Shared numeric vocabulary of the model: the double-precision constants the
// source uses, the library maths it calls, and its error wrappers.

module Numerics {

  /** `boost::math::double_constants::pi`, the double nearest to pi, exactly. */
  const Pi: real := 3.141592653589793115997963468544185161590576171875

  /** Degrees to radians and back (`TO_RAD`, `TO_DEG`), in exact arithmetic. */
  const ToRad: real := Pi / 180.0
  const ToDeg: real := 180.0 / Pi

  /** `std::numeric_limits<double>::max()`, exactly. */
  const MaxDouble: real := 179769313486231570814527423731704356798070567525844996598917476803157260780028538760589558632766878171540458953514382464234321326889464182768467546703537516986049910576551282076245490090389328944075868508455133942304583236903222948165808559332123348274797826204144723168738177180919299881250404026184124858368.0

  datatype Option<+T> = None | Some(value: T)

  datatype Result<+T, +E> = Ok(value: T) | Err(error: E)

  datatype Outcome<+E> = Pass | Fail(error: E)

  /**
   * The functions of <cmath> the source calls. They are not defined here:
   * every operation that needs them takes them as a parameter, and every
   * lemma that needs one of their identities states it as a precondition
   * at the angle it is used.
   */
  datatype Trig = Trig(
    sin: real -> real,
    cos: real -> real,
    atan2: (real, real) -> real,
    sqrt: real -> real)

  /** `pow(x, 2)` */
  function Sq(x: real): (r: real)
    ensures r >= 0.0
  {
    x * x
  }

  /** `std::abs` on a double */
  function Abs(x: real): (r: real)
    ensures r >= 0.0 && (r == x || r == -x)
  {
    if x < 0.0 then -x else x
  }

  /**
   * Double division. Where the divisor is zero the source gets an infinity
   * or a NaN, which `real` cannot represent; the model yields 0 there, and
   * every property that depends on a quotient asks for a non-zero divisor.
   */
  function FDiv(a: real, b: real): (q: real)
    ensures b != 0.0 ==> q * b == a
  {
    if b == 0.0 then 0.0 else a / b
  }
}
