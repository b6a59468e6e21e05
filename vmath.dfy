/** Scalar helpers of the sweep (Assets/Voronoi/Helpers/VMath.cs): the
    tolerant comparisons used everywhere in the beach line and the parabola
    formulas. Single-precision values are modelled as exact reals. */
module VMath {

  /** float.Epsilon, the smallest positive single (2^-149). */
  const FloatEpsilon: real := 1.40129846432481707092372958328991613128026194187651577175706828388979108268586060148663818836212158203125e-45

  /** float.MaxValue; float.MinValue is its negation. */
  const FloatMax: real := 340282346638528859811704183484516925440.0
  const FloatMin: real := -FloatMax

  /** double.MaxValue, (2 - 2^-52) * 2^1023. */
  const DoubleMax: real := 179769313486231570814527423731704356798070567525844996598917476803157260780028538760589558632766878171540458953514382464234321326889464182768467546703537516986049910576551282076245490090389328944075868508455133942304583236903222948165808559332123348274797826204144723168738177180919299881250404026184124858368.0

  /** The default tolerance of every approximate comparison. */
  const Epsilon: real := FloatEpsilon * 1.0e15

  function Abs(x: real): (r: real)
    ensures r >= 0.0 && (r == x || r == -x)
  {
    if x < 0.0 then -x else x
  }

  /** ApproxEqual with an explicit tolerance. */
  predicate ApproxEqualTol(value1: real, value2: real, tolerance: real)
  {
    Abs(value1 - value2) <= tolerance
  }

  /** ApproxEqual with the default tolerance. */
  function ApproxEqual(value1: real, value2: real): (r: bool)
    ensures r <==> -Epsilon <= value1 - value2 <= Epsilon
  {
    ApproxEqualTol(value1, value2, Epsilon)
  }

  function ApproxGreaterThanOrEqualTo(value1: real, value2: real): (r: bool)
    ensures r <==> value1 >= value2 - Epsilon
  {
    value1 > value2 || ApproxEqual(value1, value2)
  }

  function ApproxLessThanOrEqualTo(value1: real, value2: real): (r: bool)
    ensures r <==> value1 <= value2 + Epsilon
  {
    value1 < value2 || ApproxEqual(value1, value2)
  }

  /** Height of the parabola with the given focus and directrix at `x`.
      The source divides by `focusY - directrix` without a guard; the model
      asks the caller to exclude the degenerate parabola. */
  function EvalParabola(focusX: real, focusY: real, directrix: real, x: real): (y: real)
    requires focusY != directrix
    ensures x == focusX ==> y == (focusY + directrix) / 2.0
  {
    0.5 * ((x - focusX) * (x - focusX) / (focusY - directrix) + focusY + directrix)
  }

  /** x-coordinate of the breakpoint of two parabolas sharing a directrix.
      The square root of the general branch is the parameter `sqrt`. */
  function IntersectParabolaX(focus1X: real, focus1Y: real, focus2X: real, focus2Y: real,
                              directrix: real, sqrt: real -> real): (x: real)
    ensures ApproxEqual(focus1Y, focus2Y) ==> x == (focus1X + focus2X) / 2.0
  {
    if ApproxEqual(focus1Y, focus2Y) then (focus1X + focus2X) / 2.0
    else
      (focus1X * (directrix - focus2Y) + focus2X * (focus1Y - directrix) +
       sqrt((directrix - focus1Y) * (directrix - focus2Y) *
            ((focus1X - focus2X) * (focus1X - focus2X) + (focus1Y - focus2Y) * (focus1Y - focus2Y))))
      / (focus1Y - focus2Y)
  }

  /** The default tolerance is positive, so the relation is reflexive; it is
      defined on |a - b|, so it is symmetric. */
  lemma ApproxEqualReflexiveSymmetric(a: real, b: real)
    ensures ApproxEqual(a, a)
    ensures ApproxEqual(a, b) == ApproxEqual(b, a)
  {
  }

  /** The two tolerant orders are mirror images of each other. */
  lemma ApproxOrdersAreDual(a: real, b: real)
    ensures ApproxGreaterThanOrEqualTo(a, b) == ApproxLessThanOrEqualTo(b, a)
    ensures ApproxEqual(a, b) ==> ApproxGreaterThanOrEqualTo(a, b) && ApproxLessThanOrEqualTo(a, b)
  {
  }

  /** Both foci at the same height: the breakpoint is their midpoint,
      whatever the directrix and the square root. */
  lemma EqualHeightBreakpointIsMidpoint(f1x: real, fy: real, f2x: real, d1: real, d2: real,
                                        s1: real -> real, s2: real -> real)
    ensures IntersectParabolaX(f1x, fy, f2x, fy, d1, s1) == IntersectParabolaX(f1x, fy, f2x, fy, d2, s2)
    ensures IntersectParabolaX(f1x, fy, f2x, fy, d1, s1) == (f1x + f2x) / 2.0
  {
  }

  /** The parabola is symmetric about its focus. */
  lemma {:induction false} ParabolaSymmetric(focusX: real, focusY: real, directrix: real, t: real)
    requires focusY != directrix
    ensures EvalParabola(focusX, focusY, directrix, focusX + t) == EvalParabola(focusX, focusY, directrix, focusX - t)
  {
    assert (focusX + t - focusX) * (focusX + t - focusX) == (focusX - t - focusX) * (focusX - t - focusX);
  }
}
