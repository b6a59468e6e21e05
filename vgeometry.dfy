/** Plane geometry of the sweep (Assets/Voronoi/Helpers/VGeometry.cs): the
    float2/double2 vectors, the orientation and intersection predicates, and
    the construction of the far end of an unbounded Voronoi edge. Coordinates
    are exact reals, so float2 and double2 are one type here. */
module VGeometry {
  import opened VMath
  import Collections

  datatype Vec2 = Vec2(x: real, y: real) {
    function Minus(o: Vec2): Vec2 { Vec2(x - o.x, y - o.y) }
  }

  const Zero: Vec2 := Vec2(0.0, 0.0)

  /** The "not set" end of an edge: (float.MinValue, float.MinValue). */
  const Unset: Vec2 := Vec2(FloatMin, FloatMin)

  /** VGeometry.max, sqrt(sqrt(float.MaxValue)) / 2 evaluated in single
      precision: 2^31 - 128. Ray ends are clipped to [-Max, Max]^2. */
  const Max: real := 2147483520.0

  /** The 0.001f default tolerance of PointOnLineSegment, as the exact value
      of that single-precision constant. */
  const SegmentEpsilon: real := 0.001000000047497451305389404296875

  function Dot(u: Vec2, v: Vec2): real { u.x * v.x + u.y * v.y }

  /** z-component of the cross product of u and v extended with z = 0. */
  function Cross(u: Vec2, v: Vec2): real { u.x * v.y - u.y * v.x }

  function Norm2(v: Vec2): real { Dot(v, v) }

  /** The vector turned by a right angle: clockwise by default, counter-
      clockwise on request. */
  function Perpendicular(v: Vec2, counterClockwise: bool): (r: Vec2)
    ensures Dot(r, v) == 0.0
    ensures Norm2(r) == Norm2(v)
    ensures Cross(v, r) == if counterClockwise then Norm2(v) else -Norm2(v)
  {
    if !counterClockwise then Vec2(v.y, -v.x) else Vec2(-v.y, v.x)
  }

  /** Turning both ways gives opposite vectors. */
  lemma PerpendicularOpposite(v: Vec2)
    ensures Perpendicular(v, true) == Perpendicular(Vec2(-v.x, -v.y), false)
  {
  }

  /** Componentwise closeness; the source's default tolerance is float.Epsilon. */
  function ApproxEquals(a: Vec2, b: Vec2, tolerance: real): (r: bool)
    ensures r <==> -tolerance <= a.x - b.x <= tolerance && -tolerance <= a.y - b.y <= tolerance
  {
    Abs(a.x - b.x) <= tolerance && Abs(a.y - b.y) <= tolerance
  }

  lemma ApproxEqualsReflexiveSymmetric(a: Vec2, b: Vec2, tolerance: real)
    requires tolerance >= 0.0
    ensures ApproxEquals(a, a, tolerance)
    ensures ApproxEquals(a, b, tolerance) == ApproxEquals(b, a, tolerance)
  {
  }

  // ---------------------------------------------------------------- RaySide

  /** On which side of the ray from a through b the point c lies: 1 to the
      left (counter-clockwise), -1 to the right, 0 on the line. */
  function RaySide(a: Vec2, b: Vec2, c: Vec2): (r: int)
    ensures r == 1 || r == 0 || r == -1
    ensures r == 1 <==> Cross(b.Minus(a), c.Minus(a)) > 0.0
    ensures r == -1 <==> Cross(b.Minus(a), c.Minus(a)) < 0.0
  {
    var cross := Cross(b.Minus(a), c.Minus(a));
    if cross > 0.0 then 1 else if cross < 0.0 then -1 else 0
  }

  /** A point at either end of the ray's segment is on the line. */
  lemma RaySideOfEndpoints(a: Vec2, b: Vec2)
    ensures RaySide(a, b, a) == 0 && RaySide(a, b, b) == 0
  {
  }

  /** Exchanging the two points after `a` flips the side. */
  lemma {:induction false} RaySideSwap(a: Vec2, b: Vec2, c: Vec2)
    ensures RaySide(a, c, b) == -RaySide(a, b, c)
  {
    assert Cross(c.Minus(a), b.Minus(a)) == -Cross(b.Minus(a), c.Minus(a));
  }

  // ----------------------------------------------------------- Intersection

  /** The outcome of Intersection: whether the lines meet in one point, and
      the point (zero when they do not). */
  datatype Crossing = Crossing(found: bool, point: Vec2)

  /** The point c lies on the line through a and b. */
  predicate OnLine(a: Vec2, b: Vec2, c: Vec2) { Cross(b.Minus(a), c.Minus(a)) == 0.0 }

  /** The determinant of the system: zero exactly when the lines are parallel. */
  function Delta(a: Vec2, b: Vec2, c: Vec2, d: Vec2): real
  {
    (b.y - a.y) * (c.x - d.x) - (d.y - c.y) * (a.x - b.x)
  }

  /** The intersection of the line through a and b with the line through c
      and d, by Cramer's rule. */
  function Intersection(a: Vec2, b: Vec2, c: Vec2, d: Vec2): (r: Crossing)
    ensures r.found <==> Cross(b.Minus(a), d.Minus(c)) != 0.0
    ensures !r.found ==> r.point == Zero
    ensures r.found ==> OnLine(a, b, r.point) && OnLine(c, d, r.point)
  {
    DeltaIsCross(a, b, c, d);
    var delta := Delta(a, b, c, d);
    if delta == 0.0 then Crossing(false, Zero)
    else
      var a1, b1 := b.y - a.y, a.x - b.x;
      var a2, b2 := d.y - c.y, c.x - d.x;
      var c1, c2 := a1 * a.x + b1 * a.y, a2 * c.x + b2 * c.y;
      var p := Vec2((b2 * c1 - b1 * c2) / delta, (a1 * c2 - a2 * c1) / delta);
      CramerSolves(a1, b1, c1, a2, b2, c2, delta, p.x, p.y);
      LineEquation(a, b, p);
      LineEquation(c, d, p);
      Crossing(true, p)
  }

  lemma DeltaIsCross(a: Vec2, b: Vec2, c: Vec2, d: Vec2)
    ensures Delta(a, b, c, d) == Cross(b.Minus(a), d.Minus(c))
  {
  }

  /** The line through a and b is a1 x + b1 y == c1 in the source's names. */
  lemma LineEquation(a: Vec2, b: Vec2, p: Vec2)
    ensures OnLine(a, b, p) <==>
      (b.y - a.y) * p.x + (a.x - b.x) * p.y == (b.y - a.y) * a.x + (a.x - b.x) * a.y
  {
    var u := b.Minus(a);
    assert Cross(u, p.Minus(a)) == u.x * p.y - u.x * a.y - u.y * p.x + u.y * a.x;
  }

  lemma Cancel(x: real, y: real, d: real)
    requires d != 0.0 && x * d == y * d
    ensures x == y
  {
    assert (x - y) * d == 0.0;
  }

  /** Cramer's rule: the point solves both equations of the system. */
  lemma CramerSolves(a1: real, b1: real, c1: real, a2: real, b2: real, c2: real, delta: real, px: real, py: real)
    requires delta == a1 * b2 - a2 * b1 && delta != 0.0
    requires px == (b2 * c1 - b1 * c2) / delta && py == (a1 * c2 - a2 * c1) / delta
    ensures a1 * px + b1 * py == c1
    ensures a2 * px + b2 * py == c2
  {
    assert px * delta == b2 * c1 - b1 * c2;
    assert py * delta == a1 * c2 - a2 * c1;
    calc {
      (a1 * px + b1 * py) * delta;
      a1 * (px * delta) + b1 * (py * delta);
      a1 * (b2 * c1 - b1 * c2) + b1 * (a1 * c2 - a2 * c1);
      c1 * delta;
    }
    Cancel(a1 * px + b1 * py, c1, delta);
    calc {
      (a2 * px + b2 * py) * delta;
      a2 * (px * delta) + b2 * (py * delta);
      a2 * (b2 * c1 - b1 * c2) + b2 * (a1 * c2 - a2 * c1);
      c2 * delta;
    }
    Cancel(a2 * px + b2 * py, c2, delta);
  }

  /** When the lines are not parallel, the point found is the only one on
      both of them. */
  lemma IntersectionUnique(a: Vec2, b: Vec2, c: Vec2, d: Vec2, q: Vec2)
    requires Intersection(a, b, c, d).found
    requires OnLine(a, b, q) && OnLine(c, d, q)
    ensures q == Intersection(a, b, c, d).point
  {
    var p := Intersection(a, b, c, d).point;
    var u, v := b.Minus(a), d.Minus(c);
    var e := q.Minus(p);
    // both q and p lie on both lines, so e is parallel to u and to v
    assert Cross(u, e) == Cross(u, q.Minus(a)) - Cross(u, p.Minus(a));
    assert Cross(v, e) == Cross(v, q.Minus(c)) - Cross(v, p.Minus(c));
    assert u.x * e.y == u.y * e.x;
    assert v.x * e.y == v.y * e.x;
    assert Cross(u, v) * e.x == 0.0 by {
      assert Cross(u, v) * e.x == u.x * (v.y * e.x) - v.x * (u.y * e.x);
      assert u.x * (v.y * e.x) == u.x * (v.x * e.y);
      assert v.x * (u.y * e.x) == v.x * (u.x * e.y);
    }
    assert Cross(u, v) * e.y == 0.0 by {
      assert Cross(u, v) * e.y == v.y * (u.x * e.y) - u.y * (v.x * e.y);
      assert v.y * (u.x * e.y) == v.y * (u.y * e.x);
      assert u.y * (v.x * e.y) == u.y * (v.y * e.x);
    }
  }

  // ----------------------------------------------------- PointOnLineSegment

  function Min(a: real, b: real): real { if a < b then a else b }
  function MaxOf(a: real, b: real): real { if a < b then b else a }

  /** The point lies more than `epsilon` outside the segment's bounding box. */
  predicate OutsideBox(pt1: Vec2, pt2: Vec2, pt: Vec2, epsilon: real)
  {
    pt.x - MaxOf(pt1.x, pt2.x) > epsilon || Min(pt1.x, pt2.x) - pt.x > epsilon ||
    pt.y - MaxOf(pt1.y, pt2.y) > epsilon || Min(pt1.y, pt2.y) - pt.y > epsilon
  }

  /** Whether pt is within `epsilon` of the segment pt1-pt2 (the source's
      default `epsilon` is SegmentEpsilon). */
  predicate PointOnLineSegment(pt1: Vec2, pt2: Vec2, pt: Vec2, epsilon: real): (r: bool)
    requires epsilon > 0.0
    ensures OutsideBox(pt1, pt2, pt, epsilon) ==> !r
    ensures !OutsideBox(pt1, pt2, pt, epsilon) && Abs(pt2.x - pt1.x) < epsilon ==>
              (r <==> Abs(pt1.x - pt.x) < epsilon || Abs(pt2.x - pt.x) < epsilon)
    ensures !OutsideBox(pt1, pt2, pt, epsilon) && !(Abs(pt2.x - pt1.x) < epsilon) && Abs(pt2.y - pt1.y) < epsilon ==>
              (r <==> Abs(pt1.y - pt.y) < epsilon || Abs(pt2.y - pt.y) < epsilon)
  {
    if OutsideBox(pt1, pt2, pt, epsilon) then false
    else if Abs(pt2.x - pt1.x) < epsilon then Abs(pt1.x - pt.x) < epsilon || Abs(pt2.x - pt.x) < epsilon
    else if Abs(pt2.y - pt1.y) < epsilon then Abs(pt1.y - pt.y) < epsilon || Abs(pt2.y - pt.y) < epsilon
    else
      var x := pt1.x + (pt.y - pt1.y) * (pt2.x - pt1.x) / (pt2.y - pt1.y);
      var y := pt1.y + (pt.x - pt1.x) * (pt2.y - pt1.y) / (pt2.x - pt1.x);
      Abs(pt.x - x) < epsilon || Abs(pt.y - y) < epsilon
  }

  /** Every point of the segment, on the line through pt1 and pt2 and inside
      its bounding box, is accepted, whatever the positive tolerance. */
  lemma PointsOfSegmentAccepted(pt1: Vec2, pt2: Vec2, pt: Vec2, epsilon: real)
    requires epsilon > 0.0 && OnLine(pt1, pt2, pt)
    requires Min(pt1.x, pt2.x) <= pt.x <= MaxOf(pt1.x, pt2.x)
    requires Min(pt1.y, pt2.y) <= pt.y <= MaxOf(pt1.y, pt2.y)
    ensures PointOnLineSegment(pt1, pt2, pt, epsilon)
  {
    CrossComponents(pt2.Minus(pt1), pt.Minus(pt1));
    if pt2.y - pt1.y != 0.0 {
      SolveProportion(pt.x - pt1.x, pt.y - pt1.y, pt2.x - pt1.x, pt2.y - pt1.y);
    }
    SegmentCases(pt1, pt2, pt, epsilon);
  }

  lemma CrossComponents(u: Vec2, v: Vec2)
    ensures Cross(u, v) == 0.0 <==> u.x * v.y == u.y * v.x
  {
  }

  lemma SolveProportion(u: real, v: real, dx: real, dy: real)
    requires dy != 0.0 && dx * v == dy * u
    ensures v * dx / dy == u
  {
    assert v * dx == u * dy;
  }

  /** The three ways PointOnLineSegment accepts a point inside the box. */
  lemma SegmentCases(pt1: Vec2, pt2: Vec2, pt: Vec2, epsilon: real)
    requires epsilon > 0.0
    requires Min(pt1.x, pt2.x) <= pt.x <= MaxOf(pt1.x, pt2.x)
    requires Min(pt1.y, pt2.y) <= pt.y <= MaxOf(pt1.y, pt2.y)
    requires pt2.y - pt1.y != 0.0 ==> (pt.y - pt1.y) * (pt2.x - pt1.x) / (pt2.y - pt1.y) == pt.x - pt1.x
    ensures PointOnLineSegment(pt1, pt2, pt, epsilon)
  {
    if !(Abs(pt2.x - pt1.x) < epsilon) && !(Abs(pt2.y - pt1.y) < epsilon) {
      var x := pt1.x + (pt.y - pt1.y) * (pt2.x - pt1.x) / (pt2.y - pt1.y);
      assert pt.x - x == 0.0;
      assert Abs(pt.x - x) < epsilon;
    }
  }

  /** Both endpoints are on the segment. */
  lemma EndpointsOnSegment(pt1: Vec2, pt2: Vec2, epsilon: real)
    requires epsilon > 0.0
    ensures PointOnLineSegment(pt1, pt2, pt1, epsilon)
    ensures PointOnLineSegment(pt1, pt2, pt2, epsilon)
  {
    PointsOfSegmentAccepted(pt1, pt2, pt1, epsilon);
    PointsOfSegmentAccepted(pt1, pt2, pt2, epsilon);
  }

  // ------------------------------------------------------------ BuildRayEnd

  /** Direction of the Voronoi edge between the sites `left` and `right`:
      (slopeRun, slopeRise) in the source's names. */
  function RayDirection(left: Vec2, right: Vec2): (r: Vec2)
    ensures r == Perpendicular(left.Minus(right), true)
    ensures Dot(r, left.Minus(right)) == 0.0
  {
    Vec2(-(left.y - right.y), left.x - right.x)
  }

  /** p lies on the ray from `start` in direction `dir`. */
  predicate OnRay(start: Vec2, dir: Vec2, p: Vec2)
  {
    Cross(dir, p.Minus(start)) == 0.0 && Dot(dir, p.Minus(start)) >= 0.0
  }

  predicate Within(x: real, a: real, b: real)
  {
    ApproxGreaterThanOrEqualTo(x, a) && ApproxLessThanOrEqualTo(x, b)
  }

  /** The intercept of the line of slope `slope` through `start`. */
  function Intercept(start: Vec2, slope: real): (b: real)
    ensures slope * start.x + b == start.y
  {
    start.y - slope * start.x
  }

  /** The intercept exactly as the source computes it, with start.x in the
      place of start.y. */
  function InterceptAsWritten(start: Vec2, slope: real): (b: real)
    ensures slope * start.x + b == start.x
    ensures b == Intercept(start, slope) <==> start.x == start.y
  {
    start.x - slope * start.x
  }

  /** The points where the line y = slope x + intercept meets the four sides of
      the clipping square, in the order top, bottom, left, right, each kept
      only when it lies on its side (within tolerance). */
  function BoundaryCandidates(slope: real, intercept: real): (r: seq<Vec2>)
    requires slope != 0.0
    ensures |r| <= 4
    ensures forall c :: c in r ==> OnSlopeLine(slope, intercept, c)
  {
    var topX := Vec2(XAt(slope, intercept, Max), Max);
    var bottomX := Vec2(XAt(slope, intercept, -Max), -Max);
    var leftY := Vec2(-Max, slope * -Max + intercept);
    var rightY := Vec2(Max, slope * Max + intercept);
    OnLineAtHeight(slope, intercept, Max);
    OnLineAtHeight(slope, intercept, -Max);
    KeepIf(Within(topX.x, -Max, Max), topX) + KeepIf(Within(bottomX.x, -Max, Max), bottomX) +
    KeepIf(Within(leftY.y, -Max, Max), leftY) + KeepIf(Within(rightY.y, -Max, Max), rightY)
  }

  lemma OnLineAtHeight(slope: real, intercept: real, y: real)
    requires slope != 0.0
    ensures OnSlopeLine(slope, intercept, Vec2(XAt(slope, intercept, y), y))
  {
  }

  /** c lies on the line y = slope x + intercept. */
  predicate OnSlopeLine(slope: real, intercept: real, c: Vec2)
  {
    c.y == slope * c.x + intercept
  }

  /** Where the line y = slope x + intercept reaches height y. */
  function XAt(slope: real, intercept: real, y: real): (x: real)
    requires slope != 0.0
    ensures slope * x + intercept == y
  {
    (y - intercept) / slope
  }

  /** The candidate c alone when b holds, none otherwise. */
  function KeepIf(b: bool, c: Vec2): (r: seq<Vec2>)
    ensures |r| <= 1 && (forall d :: d in r ==> d == c) && (b <==> c in r)
  {
    if b then [c] else []
  }

  /** A candidate survives when it does not point backwards from `start`. */
  predicate Aligned(start: Vec2, dir: Vec2, c: Vec2)
  {
    !(dir.x * (c.x - start.x) + dir.y * (c.y - start.y) < 0.0)
  }

  /** The aligned candidates, in their original order. */
  function KeepAligned(s: seq<Vec2>, start: Vec2, dir: Vec2): (r: seq<Vec2>)
    ensures forall c :: c in r <==> c in s && Aligned(start, dir, c)
  {
    if s == [] then []
    else (if Aligned(start, dir, s[0]) then [s[0]] else []) + KeepAligned(s[1..], start, dir)
  }

  /** The squared distance from a to b. */
  function Dist2(a: Vec2, b: Vec2): real { Norm2(b.Minus(a)) }

  /** What the end of the ray is, given the surviving candidates: the only
      one, the farther of two, or the unset sentinel otherwise. */
  predicate IsRayEndChoice(start: Vec2, kept: multiset<Vec2>, end: Vec2)
  {
    (|kept| == 1 ==> end in kept) &&
    (|kept| == 2 ==> end in kept && forall c :: c in kept ==> Dist2(start, c) <= Dist2(start, end)) &&
    (|kept| != 1 && |kept| != 2 ==> end == Unset)
  }

  /** The misaligned candidates removed back to front with RemoveAtSwapBack
      (lines 63-70 of the source): the survivors are exactly the aligned
      candidates, in an order the swaps decide. */
  method RemoveMisaligned(all: seq<Vec2>, start: Vec2, dir: Vec2) returns (candidates: seq<Vec2>)
    ensures multiset(candidates) == multiset(KeepAligned(all, start, dir))
  {
    candidates := all;
    var i := |candidates| - 1;
    while i > -1
      invariant -1 <= i < |candidates| <= |all|
      invariant candidates[..i + 1] == all[..i + 1]
      invariant multiset(candidates[i + 1..]) == multiset(KeepAligned(all[i + 1..], start, dir))
      decreases i
    {
      var candidate := candidates[i];
      MisalignedStep(candidates, all, i, start, dir);
      if !Aligned(start, dir, candidate) {
        candidates := Collections.RemoveAtSwapBack(candidates, i);
      }
      i := i - 1;
    }
    assert candidates == candidates[0..];
    assert all[0..] == all;
  }

  /** One step of the backward scan: slot i is kept or swapped out, and the
      loop's two facts move down by one. */
  lemma MisalignedStep(before: seq<Vec2>, all: seq<Vec2>, i: nat, start: Vec2, dir: Vec2)
    requires i < |before| <= |all|
    requires before[..i + 1] == all[..i + 1]
    requires multiset(before[i + 1..]) == multiset(KeepAligned(all[i + 1..], start, dir))
    ensures var after := if Aligned(start, dir, before[i]) then before
                         else Collections.RemoveAtSwapBack(before, i);
      i <= |after| <= |all| && after[..i] == all[..i] &&
      multiset(after[i..]) == multiset(KeepAligned(all[i..], start, dir))
  {
    assert before[i] == all[i] by { assert before[..i + 1][i] == all[..i + 1][i]; }
    KeepAlignedStep(all, i, start, dir);
    assert before[..i] == all[..i] by {
      assert before[..i] == before[..i + 1][..i];
      assert all[..i] == all[..i + 1][..i];
    }
    if !Aligned(start, dir, before[i]) {
      Collections.SwapBackSuffix(before, i);
    } else {
      assert before[i..] == [before[i]] + before[i + 1..];
    }
  }

  lemma KeepAlignedStep(s: seq<Vec2>, i: nat, start: Vec2, dir: Vec2)
    requires i < |s|
    ensures KeepAligned(s[i..], start, dir) ==
      (if Aligned(start, dir, s[i]) then [s[i]] else []) + KeepAligned(s[i + 1..], start, dir)
  {
    assert s[i..][1..] == s[i + 1..];
  }

  /** Lines 51-90 of the source: drop the misaligned boundary candidates and
      pick the end among the survivors. */
  method ChooseRayEnd(start: Vec2, dir: Vec2, all: seq<Vec2>) returns (end: Vec2)
    ensures IsRayEndChoice(start, multiset(KeepAligned(all, start, dir)), end)
  {
    var candidates := RemoveMisaligned(all, start, dir);
    if |candidates| == 2 {
      assert candidates == [candidates[0], candidates[1]];
      end := if Dist2(start, candidates[0]) > Dist2(start, candidates[1]) then candidates[0] else candidates[1];
    } else if |candidates| == 1 {
      assert candidates == [candidates[0]];
      end := candidates[0];
    } else {
      end := Unset;
    }
  }

  /** The far end of the unbounded edge that starts at `start` and separates
      `left` from `right`: a point on the clipping square ahead of `start`,
      or Unset when there is no such point. */
  method BuildRayEnd(start: Vec2, left: Vec2, right: Vec2) returns (end: Vec2)
    ensures RayEnds(start, left, right, end)
  {
    var dir := RayDirection(left, right);
    var slopeRise, slopeRun := dir.y, dir.x;
    if ApproxEqual(slopeRise, 0.0) {
      return if slopeRun > 0.0 then Vec2(Max, start.y) else Vec2(-Max, start.y);
    }
    if ApproxEqual(slopeRun, 0.0) {
      return if slopeRise > 0.0 then Vec2(start.x, Max) else Vec2(start.x, -Max);
    }
    var slope := slopeRise / slopeRun;
    var all := BoundaryCandidates(slope, Intercept(start, slope));
    end := ChooseRayEnd(start, dir, all);
    if end != Unset {
      AlignedCandidatesOnRay(start, dir, slope, all, end);
    }
  }

  /** What BuildRayEnd returns: a horizontal ray ends on the left or right
      side of the clipping square, a vertical one on its top or bottom, and
      any other one at the farther of the square's points on its line that
      lie ahead of `start` (which is on the ray), or Unset when there is none. */
  predicate RayEnds(start: Vec2, left: Vec2, right: Vec2, end: Vec2)
  {
    var dir := RayDirection(left, right);
    if ApproxEqual(dir.y, 0.0) then end == (if dir.x > 0.0 then Vec2(Max, start.y) else Vec2(-Max, start.y))
    else if ApproxEqual(dir.x, 0.0) then end == (if dir.y > 0.0 then Vec2(start.x, Max) else Vec2(start.x, -Max))
    else
      var slope := dir.y / dir.x;
      slope != 0.0 &&
      IsRayEndChoice(start, multiset(KeepAligned(BoundaryCandidates(slope, Intercept(start, slope)), start, dir)), end) &&
      (end == Unset || OnRay(start, dir, end))
  }

  /** When every candidate lies on the line through `start`, every surviving
      candidate lies on the ray from `start` in direction `dir`. */
  lemma AlignedCandidatesOnRay(start: Vec2, dir: Vec2, slope: real, all: seq<Vec2>, c: Vec2)
    requires dir.x != 0.0 && slope == dir.y / dir.x
    requires forall p :: p in all ==> OnSlopeLine(slope, Intercept(start, slope), p)
    requires c in multiset(KeepAligned(all, start, dir))
    ensures OnRay(start, dir, c)
  {
    assert c in KeepAligned(all, start, dir);
    assert c in all;
    LinePointOnRay(start, dir, slope, c);
  }

  lemma LinePointOnRay(start: Vec2, dir: Vec2, slope: real, c: Vec2)
    requires dir.x != 0.0 && slope == dir.y / dir.x
    requires OnSlopeLine(slope, Intercept(start, slope), c) && Aligned(start, dir, c)
    ensures OnRay(start, dir, c)
  {
    assert c.y - start.y == slope * (c.x - start.x);
    SlopeLine(dir.x, dir.y, slope, c.x - start.x, c.y - start.y);
    CrossComponents(dir, c.Minus(start));
  }

  /** A step (u, v) along the line of slope rise / run is parallel to (run, rise). */
  lemma SlopeLine(run: real, rise: real, slope: real, u: real, v: real)
    requires run != 0.0 && slope == rise / run && v == slope * u
    ensures run * v == rise * u
  {
    assert run * slope == rise;
    assert run * v == (run * slope) * u;
  }

  /** BuildRayEnd exactly as the source writes it, with InterceptAsWritten. */
  method BuildRayEndAsWritten(start: Vec2, left: Vec2, right: Vec2) returns (end: Vec2)
    ensures var dir := RayDirection(left, right);
      !ApproxEqual(dir.y, 0.0) && !ApproxEqual(dir.x, 0.0) ==>
        var slope := dir.y / dir.x;
        slope != 0.0 &&
        IsRayEndChoice(start, multiset(KeepAligned(BoundaryCandidates(slope, InterceptAsWritten(start, slope)), start, dir)), end)
  {
    var dir := RayDirection(left, right);
    var slopeRise, slopeRun := dir.y, dir.x;
    if ApproxEqual(slopeRise, 0.0) {
      return if slopeRun > 0.0 then Vec2(Max, start.y) else Vec2(-Max, start.y);
    }
    if ApproxEqual(slopeRun, 0.0) {
      return if slopeRise > 0.0 then Vec2(start.x, Max) else Vec2(start.x, -Max);
    }
    var slope := slopeRise / slopeRun;
    end := ChooseRayEnd(start, dir, BoundaryCandidates(slope, InterceptAsWritten(start, slope)));
  }

  /** Sites (0, 0) and (2, 4), edge starting at (1, 2) on their bisector: the
      as-written intercept puts the line at y = 1.5 - x / 2, which misses
      `start`; its only surviving candidate is (Max, 1.5 - Max / 2). */
  lemma AsWrittenSurvivor()
    ensures multiset(KeepAligned(BoundaryCandidates(-0.5, InterceptAsWritten(Vec2(1.0, 2.0), -0.5)),
                                 Vec2(1.0, 2.0), Vec2(4.0, -2.0))) == multiset{Vec2(Max, -0.5 * Max + 1.5)}
  {
    var start, dir := Vec2(1.0, 2.0), Vec2(4.0, -2.0);
    var s0, s1 := Vec2(-Max, -0.5 * -Max + 1.5), Vec2(Max, -0.5 * Max + 1.5);
    var b := InterceptAsWritten(start, -0.5);
    assert b == 1.5;
    var all := BoundaryCandidates(-0.5, b);
    assert all == [s0, s1] by { ExampleCandidates(); }
    var kept := KeepAligned(all, start, dir);
    assert kept == [s1] by { ExampleKept(); }
    assert multiset(kept) == multiset{s1};
  }

  /** ... so for that input every result BuildRayEndAsWritten may return is
      that survivor, which is off the edge's ray. */
  lemma AsWrittenRayEndLeavesTheRay(end: Vec2)
    requires IsRayEndChoice(Vec2(1.0, 2.0), multiset{Vec2(Max, -0.5 * Max + 1.5)}, end)
    ensures InterceptAsWritten(Vec2(1.0, 2.0), -0.5) == 1.5 && Intercept(Vec2(1.0, 2.0), -0.5) == 2.5
    ensures end == Vec2(Max, -0.5 * Max + 1.5)
    ensures !OnRay(Vec2(1.0, 2.0), Vec2(4.0, -2.0), end)
  {
    SingleChoice(Vec2(1.0, 2.0), Vec2(Max, -0.5 * Max + 1.5), end);
    assert Cross(Vec2(4.0, -2.0), end.Minus(Vec2(1.0, 2.0))) == -4.0;
  }

  /** The bisector of (0, 0) and (2, 4) runs along (4, -2), slope -1/2. */
  lemma ExampleDirection()
    ensures RayDirection(Vec2(0.0, 0.0), Vec2(2.0, 4.0)) == Vec2(4.0, -2.0)
  {
    var v := Vec2(0.0, 0.0).Minus(Vec2(2.0, 4.0));
    assert v == Vec2(-2.0, -4.0);
  }

  /** With a single survivor, the survivor is the end. */
  lemma SingleChoice(start: Vec2, r: Vec2, end: Vec2)
    requires IsRayEndChoice(start, multiset{r}, end)
    ensures end == r
  {
    assert |multiset{r}| == 1;
  }

  lemma ExampleCandidates()
    ensures BoundaryCandidates(-0.5, 1.5) == [Vec2(-Max, -0.5 * -Max + 1.5), Vec2(Max, -0.5 * Max + 1.5)]
  {
    assert !Within((Max - 1.5) / -0.5, -Max, Max);
    assert !Within((-Max - 1.5) / -0.5, -Max, Max);
    assert Within(-0.5 * -Max + 1.5, -Max, Max);
    assert Within(-0.5 * Max + 1.5, -Max, Max);
  }

  lemma ExampleKept()
    ensures KeepAligned([Vec2(-Max, -0.5 * -Max + 1.5), Vec2(Max, -0.5 * Max + 1.5)], Vec2(1.0, 2.0), Vec2(4.0, -2.0))
         == [Vec2(Max, -0.5 * Max + 1.5)]
  {
    var s := [Vec2(-Max, -0.5 * -Max + 1.5), Vec2(Max, -0.5 * Max + 1.5)];
    var start, dir := Vec2(1.0, 2.0), Vec2(4.0, -2.0);
    assert !Aligned(start, dir, s[0]);
    assert Aligned(start, dir, s[1]);
    assert s[1..] == [s[1]];
    assert [s[1]][1..] == [];
    assert KeepAligned([s[1]], start, dir) == [s[1]] + KeepAligned([], start, dir);
  }
}
