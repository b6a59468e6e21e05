/** The numbers the beach line computes (Assets/Voronoi/Handlers/BeachLine.cs):
    the breakpoints between neighbouring arcs, where a new site falls with
    respect to one arc, and the centre of the circle through three sites.
    Single-precision values are exact reals; the operations the model does
    not interpret are parameters. */
module BeachGeometry {
  import opened Wrappers
  import opened VMath
  import opened VGeometry
  import opened Sites

  /** The square root, and the quotient of a division whose divisor is zero
      (an infinity or NaN in single precision), as the sweep is given them. */
  datatype Numerics = Numerics(sqrt: real -> real, byZero: real -> real)
  {
    function Sqrt(v: real): real { sqrt(v) }
  }

  /** Single-precision division: exact unless the divisor is zero. */
  function Div(a: real, b: real, num: Numerics): (r: real)
    ensures b != 0.0 ==> r * b == a
  {
    if b == 0.0 then num.byZero(a) else a / b
  }

  /** A single-precision value that may be an infinity. */
  datatype Bound = NegInf | Finite(v: real) | PosInf

  /** b - x. */
  function Sub(b: Bound, x: real): (r: Bound)
    ensures r.Finite? <==> b.Finite?
    ensures b.Finite? ==> r.v == b.v - x
  {
    match b
    case Finite(v) => Finite(v - x)
    case _ => b
  }

  /** x - b. */
  function SubFrom(x: real, b: Bound): (r: Bound)
    ensures r.Finite? <==> b.Finite?
    ensures b.Finite? ==> r.v == x - b.v
    ensures b.NegInf? <==> r.PosInf?
  {
    match b
    case NegInf => PosInf
    case PosInf => NegInf
    case Finite(v) => Finite(x - v)
  }

  /** `b > 0`. */
  predicate Positive(b: Bound)
  {
    b.PosInf? || (b.Finite? && b.v > 0.0)
  }

  /** VMath.ApproxEqual(b, 0): never true of an infinity. */
  predicate NearZero(b: Bound)
  {
    b.Finite? && ApproxEqual(b.v, 0.0)
  }

  /** A site on the directrix has a degenerate parabola, a vertical ray. */
  predicate Degenerate(a: VSite, directrix: real)
  {
    ApproxEqual(a.y - directrix, 0.0)
  }

  /** LeftBreakpoint (lines 352-373) on the site `a` of the arc and the site
      `b` of the arc before it, if any. */
  function LeftBreakpoint(a: VSite, b: Option<VSite>, directrix: real, sqrt: real -> real): (r: Bound)
    ensures !r.PosInf?
    ensures r.NegInf? <==> b.None? && !Degenerate(a, directrix)
  {
    if Degenerate(a, directrix) then Finite(a.x)
    else if b.None? then NegInf
    else if Degenerate(b.value, directrix) then Finite(b.value.x)
    else Finite(IntersectParabolaX(b.value.x, b.value.y, a.x, a.y, directrix, sqrt))
  }

  /** RightBreakpoint (lines 375-396) on the site `a` of the arc and the site
      `b` of the arc after it, if any. */
  function RightBreakpoint(a: VSite, b: Option<VSite>, directrix: real, sqrt: real -> real): (r: Bound)
    ensures !r.NegInf?
    ensures r.PosInf? <==> b.None? && !Degenerate(a, directrix)
  {
    if Degenerate(a, directrix) then Finite(a.x)
    else if b.None? then PosInf
    else if Degenerate(b.value, directrix) then Finite(b.value.x)
    else Finite(IntersectParabolaX(a.x, a.y, b.value.x, b.value.y, directrix, sqrt))
  }

  /** Two neighbouring arcs agree on the breakpoint between them, unless both
      sites lie on the directrix: then each arc reports its own x. */
  lemma BreakpointsAgree(a: VSite, b: VSite, directrix: real, sqrt: real -> real)
    ensures !(Degenerate(a, directrix) && Degenerate(b, directrix)) ==>
      LeftBreakpoint(b, Some(a), directrix, sqrt) == RightBreakpoint(a, Some(b), directrix, sqrt)
    ensures Degenerate(a, directrix) && Degenerate(b, directrix) ==>
      LeftBreakpoint(b, Some(a), directrix, sqrt) == Finite(b.x) &&
      RightBreakpoint(a, Some(b), directrix, sqrt) == Finite(a.x)
  {
  }

  /** A degenerate arc is a single point: both its breakpoints are its x. */
  lemma DegenerateArcIsPoint(a: VSite, l: Option<VSite>, r: Option<VSite>, directrix: real, sqrt: real -> real)
    requires Degenerate(a, directrix)
    ensures LeftBreakpoint(a, l, directrix, sqrt) == RightBreakpoint(a, r, directrix, sqrt) == Finite(a.x)
  {
  }

  /** Where the new site at x falls with respect to one arc of the descent
      (lines 45-96), in the order the source tests it. */
  datatype Placement =
    | Before   // before the left breakpoint
    | After    // after the right breakpoint
    | OnLeft   // below the left breakpoint
    | OnRight  // below the right breakpoint
    | Inside   // strictly inside the arc

  function Locate(leftBreak: Bound, rightBreak: Bound, x: real): (p: Placement)
  {
    var distanceLeft := Sub(leftBreak, x);
    var distanceRight := SubFrom(x, rightBreak);
    if Positive(distanceLeft) then Before
    else if Positive(distanceRight) then After
    else if NearZero(distanceLeft) then OnLeft
    else if NearZero(distanceRight) then OnRight
    else Inside
  }

  /** Each placement in terms of the two breakpoints: Inside means that x is
      more than the tolerance inside both, Before and After that it lies
      strictly outside one of them. */
  lemma LocateMeaning(l: Bound, r: Bound, x: real)
    requires !l.PosInf? && !r.NegInf?
    ensures Locate(l, r, x) == Before <==> l.Finite? && x < l.v
    ensures Locate(l, r, x) == After <==> !(l.Finite? && x < l.v) && r.Finite? && r.v < x
    ensures Locate(l, r, x) == Inside <==>
      (l.NegInf? || l.v < x - Epsilon) && (r.PosInf? || x + Epsilon < r.v)
    ensures Locate(l, r, x) == OnLeft ==> l.Finite? && x - Epsilon <= l.v <= x
    ensures Locate(l, r, x) == OnRight ==> r.Finite? && x <= r.v <= x + Epsilon
  {
  }

  /** No site falls inside a degenerate arc. */
  lemma NotInsideDegenerate(a: VSite, lb: Option<VSite>, rb: Option<VSite>, directrix: real,
                            sqrt: real -> real, x: real)
    requires Locate(LeftBreakpoint(a, lb, directrix, sqrt), RightBreakpoint(a, rb, directrix, sqrt), x) == Inside
    ensures !Degenerate(a, directrix) && a.y != directrix
  {
    if Degenerate(a, directrix) {
      DegenerateArcIsPoint(a, lb, rb, directrix, sqrt);
      LocateMeaning(Finite(a.x), Finite(a.x), x);
    }
  }

  /** The centre of the circle through the origin, u and v, as lines
      211-224 and 431-443 compute it. */
  function CenterOffset(u: Vec2, v: Vec2, num: Numerics): (c: Vec2)
  {
    var d := Cross(u, v);
    Vec2(Div(v.y * Norm2(u) - u.y * Norm2(v), 2.0 * d, num),
         Div(u.x * Norm2(v) - v.x * Norm2(u), 2.0 * d, num))
  }

  /** The centre of the circle through o, p and q, with o moved to the
      origin and the offset moved back. */
  function Circumcenter(o: Vec2, p: Vec2, q: Vec2, num: Numerics): (c: Vec2)
  {
    var c := CenterOffset(p.Minus(o), q.Minus(o), num);
    Vec2(c.x + o.x, c.y + o.y)
  }

  /** c is as far from w as from the origin, for w one of the two spanning
      vectors. */
  lemma {:induction false} CenterStep(c: Vec2, w: Vec2, d: real, nx: real, ny: real)
    requires d != 0.0 && c.x * (2.0 * d) == nx && c.y * (2.0 * d) == ny
    requires w.x * nx + w.y * ny == Norm2(w) * d
    ensures Norm2(c.Minus(w)) == Norm2(c)
  {
    var cx, cy := c.x, c.y;
    assert 2.0 * (cx * w.x + cy * w.y) * d == Norm2(w) * d by {
      assert 2.0 * (cx * w.x + cy * w.y) * d == w.x * (cx * (2.0 * d)) + w.y * (cy * (2.0 * d));
    }
    assert 2.0 * (cx * w.x + cy * w.y) == Norm2(w);
    assert Norm2(c.Minus(w)) == (cx - w.x) * (cx - w.x) + (cy - w.y) * (cy - w.y);
  }

  /** The two weighted sums the centre is built from, against either
      spanning vector. */
  lemma {:induction false} SpanIdentity(ux: real, uy: real, vx: real, vy: real)
    ensures var nu, nv, d := ux * ux + uy * uy, vx * vx + vy * vy, ux * vy - uy * vx;
      ux * (vy * nu - uy * nv) + uy * (ux * nv - vx * nu) == nu * d &&
      vx * (vy * nu - uy * nv) + vy * (ux * nv - vx * nu) == nv * d
  {
    var nu, nv := ux * ux + uy * uy, vx * vx + vy * vy;
    assert ux * (vy * nu - uy * nv) + uy * (ux * nv - vx * nu) == nu * (ux * vy - uy * vx);
    assert vx * (vy * nu - uy * nv) + vy * (ux * nv - vx * nu) == nv * (ux * vy - uy * vx);
  }

  /** SpanIdentity on the vectors themselves. */
  lemma SpanOf(u: Vec2, v: Vec2, nx: real, ny: real)
    requires nx == v.y * Norm2(u) - u.y * Norm2(v) && ny == u.x * Norm2(v) - v.x * Norm2(u)
    ensures u.x * nx + u.y * ny == Norm2(u) * Cross(u, v)
    ensures v.x * nx + v.y * ny == Norm2(v) * Cross(u, v)
  {
    SpanIdentity(u.x, u.y, v.x, v.y);
  }

  /** The offset times twice the cross product gives back the sums it is
      divided from. */
  lemma OffsetScaled(u: Vec2, v: Vec2, num: Numerics)
    requires Cross(u, v) != 0.0
    ensures var c, d := CenterOffset(u, v, num), Cross(u, v);
      c.x * (2.0 * d) == v.y * Norm2(u) - u.y * Norm2(v) &&
      c.y * (2.0 * d) == u.x * Norm2(v) - v.x * Norm2(u)
  {
    assert 2.0 * Cross(u, v) != 0.0;
  }

  /** Unless u and v are parallel, the offset is as far from u and from v
      as from the origin. */
  lemma {:induction false} OffsetEquidistant(u: Vec2, v: Vec2, num: Numerics)
    requires Cross(u, v) != 0.0
    ensures var c := CenterOffset(u, v, num);
      Norm2(c.Minus(u)) == Norm2(c) && Norm2(c.Minus(v)) == Norm2(c)
  {
    var d := Cross(u, v);
    var nx := v.y * Norm2(u) - u.y * Norm2(v);
    var ny := u.x * Norm2(v) - v.x * Norm2(u);
    var c := CenterOffset(u, v, num);
    OffsetScaled(u, v, num);
    SpanOf(u, v, nx, ny);
    CenterStep(c, u, d, nx, ny);
    CenterStep(c, v, d, nx, ny);
  }

  /** Unless the three points are collinear, the computed centre is
      equidistant from all three: it is their circumcentre. */
  lemma {:induction false} CircumcenterEquidistant(o: Vec2, p: Vec2, q: Vec2, num: Numerics)
    requires Cross(p.Minus(o), q.Minus(o)) != 0.0
    ensures var c := Circumcenter(o, p, q, num);
      Dist2(o, c) == Dist2(p, c) && Dist2(o, c) == Dist2(q, c)
  {
    var u, v := p.Minus(o), q.Minus(o);
    var f := CenterOffset(u, v, num);
    OffsetEquidistant(u, v, num);
    var c := Circumcenter(o, p, q, num);
    assert c.Minus(o) == f;
    assert c.Minus(p) == f.Minus(u);
    assert c.Minus(q) == f.Minus(v);
  }

  /** The event point of a circle: its centre raised by the radius, the
      root of the squared radius r2. */
  function TopOf(o: Vec2, r2: real, num: Numerics): (p: Vec2)
    ensures p.x == o.x
  {
    Vec2(o.x, o.y + num.Sqrt(r2))
  }

  /** CheckCircle's arithmetic (lines 437-458) on the sites of the arc
      before, of the arc itself and of the arc after it: None when the two
      outer arcs do not turn towards each other (the early return of line
      448), else the event point (the top of the circle through the three
      sites, as seen from the sweep) and the y of the circle's centre. */
  function CircleTop(left: VSite, center: VSite, right: VSite, num: Numerics): (r: Option<(Vec2, real)>)
    ensures r.Some? <==> Cross(Point(left).Minus(Point(center)), Point(right).Minus(Point(center))) < -Epsilon
  {
    var b := Point(center);
    var a := Point(left).Minus(b);
    var c := Point(right).Minus(b);
    var d := Cross(a, c);
    if ApproxGreaterThanOrEqualTo(d, 0.0) then None
    else
      var off := CenterOffset(a, c, num);
      var yCenter := off.y + b.y;
      Some((TopOf(Vec2(off.x + b.x, yCenter), Norm2(off), num), yCenter))
  }

  /** A scheduled circle event lies straight above the circumcentre of the
      three sites, at the centre's height plus the square root of the
      squared radius. */
  lemma CircleTopIsOnCircle(left: VSite, center: VSite, right: VSite, num: Numerics)
    requires CircleTop(left, center, right, num).Some?
    ensures var (p, yCenter) := CircleTop(left, center, right, num).value;
      var o := Circumcenter(Point(center), Point(left), Point(right), num);
      p == TopOf(o, Dist2(Point(center), o), num) && yCenter == o.y &&
      Dist2(Point(center), o) == Dist2(Point(left), o) && Dist2(Point(center), o) == Dist2(Point(right), o)
  {
    var b := Point(center);
    CircumcenterEquidistant(b, Point(left), Point(right), num);
    var o := Circumcenter(b, Point(left), Point(right), num);
    var off := CenterOffset(Point(left).Minus(b), Point(right).Minus(b), num);
    assert o.Minus(b) == off;
  }
}
