/** Merging the diagrams of two neighbouring chunks
    (Assets/Voronoi/Jobs/VoronoiMerger.cs): the site lists are joined, the
    hulls merged, the dividing chain of new edges walked from the upper
    tangent to the lower one through the regions of both diagrams, the old
    edges on the wrong side cut or dropped, and the three edge lists joined
    with their regions. */
module VoronoiMerge {
  import opened Wrappers
  import opened VMath
  import opened VGeometry
  import opened Edges
  import opened Sites
  import opened Collections
  import opened BeachGeometry
  import ConvexHull
  import opened FortuneSweep

  /** What a chunk job or a merger job leaves: Sites, Edges, Regions,
      SiteIdIndexes and ConvexHull. */
  datatype Part = Part(sites: seq<VSite>, edges: seq<VEdge>, regions: MultiMap,
                       idIndexes: map<int, int>, hull: seq<VSite>)

  // ------------------------------------------------------------ sites

  /** Lines 106-109: Sites is the left sites then the right ones, and each
      id is recorded with its index in the joined list, the right ids
      after the left ones. */
  method MergeSites(left: seq<VSite>, right: seq<VSite>) returns (sites: seq<VSite>, idIndexes: map<int, int>)
    ensures sites == left + right && IdIndexed(sites, idIndexes)
  {
    sites := left + right;
    idIndexes := map[];
    assert sites[..0] == [];
    var i := 0;
    while i < |left|
      invariant 0 <= i <= |left| && IdIndexed(sites[..i], idIndexes)
    {
      IdIndexStep(sites, i, idIndexes);
      idIndexes := idIndexes[left[i].id := i];
      i := i + 1;
    }
    i := 0;
    while i < |right|
      invariant 0 <= i <= |right| && IdIndexed(sites[..|left| + i], idIndexes)
    {
      IdIndexStep(sites, |left| + i, idIndexes);
      idIndexes := idIndexes[right[i].id := i + |left|];
      i := i + 1;
    }
    assert sites[..|left| + |right|] == sites;
  }

  /** With distinct ids a left id leads to its own index and a right id to
      its index shifted past the left sites. */
  lemma MergedIndexes(left: seq<VSite>, right: seq<VSite>, idIndexes: map<int, int>)
    requires IdIndexed(left + right, idIndexes)
    requires forall i, j :: 0 <= i < j < |left + right| ==> (left + right)[i].id != (left + right)[j].id
    ensures forall i :: 0 <= i < |left| ==> left[i].id in idIndexes && idIndexes[left[i].id] == i
    ensures forall i :: 0 <= i < |right| ==> right[i].id in idIndexes && idIndexes[right[i].id] == i + |left|
  {
    IdIndexedDistinct(left + right, idIndexes);
    forall i | 0 <= i < |left|
      ensures left[i].id in idIndexes && idIndexes[left[i].id] == i
    {
      assert (left + right)[i] == left[i];
    }
    forall i | 0 <= i < |right|
      ensures right[i].id in idIndexes && idIndexes[right[i].id] == i + |left|
    {
      assert (left + right)[i + |left|] == right[i];
    }
  }

  // ------------------------------------------------------------ crossing scans

  /** What a scan over a region keeps: whether it accepted an edge, the
      least measure so far, the crossing point, the edge's index and the
      edge. */
  datatype Best = Best(found: bool, measure: real, point: Vec2, index: int, edge: VEdge)

  /** The start of both scans: double.MaxValue, the zero point, index -1
      and the default edge. */
  const NoBest: Best := Best(false, DoubleMax, Zero, -1, VEdge(Zero, Zero, 0, 0, 0))

  /** How one edge of a region fares in a scan, before the comparison with
      the least measure so far. */
  datatype Probe = Miss | Hit(measure: real, point: Vec2)

  /** The two scans: RegionCrossing from `start` along `dir`, skipping the
      edge the walk is on; RayRegionCrossing across the line through
      `middle` along `normal`. */
  datatype Scanner =
    | Forward(start: Vec2, dir: Vec2, current: VEdge)
    | Across(middle: Vec2, normal: Vec2, num: Numerics)

  function Plus(u: Vec2, v: Vec2): Vec2 { Vec2(u.x + v.x, u.y + v.y) }

  /** Lines 368-383: the crossing's offset from `middle` turned by
      atan2(normal.x, normal.y) has the y coordinate offset.x * sin +
      offset.y * cos, which for a non-zero normal is the offset's
      projection on the normal, and for a zero normal the offset's y. */
  function Aligned(offset: Vec2, normal: Vec2, num: Numerics): real
  {
    if normal == Zero then offset.y else Div(Dot(offset, normal), num.sqrt(Norm2(normal)), num)
  }

  /** Lines 424-431 and 378-385: an edge is a hit when the lines meet at a
      point on the edge's segment, and for RegionCrossing only when it is
      not IsEqual to the current edge and the point lies strictly ahead;
      the measure is the squared distance for RegionCrossing and the
      aligned distance for RayRegionCrossing. */
  function ProbeEdge(s: Scanner, e: VEdge): (p: Probe)
    ensures p.Hit? ==> PointOnLineSegment(e.start, e.end, p.point, SegmentEpsilon)
    ensures p.Hit? && s.Forward? ==>
      !IsEqual(e, s.current) && Dot(s.dir, p.point.Minus(s.start)) > 0.0 &&
      p.measure == Norm2(p.point.Minus(s.start))
  {
    match s
    case Forward(start, dir, current) =>
      if IsEqual(e, current) then Miss
      else
        var x := Intersection(start, Plus(start, dir), e.start, e.end);
        var delta := x.point.Minus(start);
        if !x.found || Dot(dir, delta) <= 0.0 || !PointOnLineSegment(e.start, e.end, x.point, SegmentEpsilon) then Miss
        else Hit(Norm2(delta), x.point)
    case Across(middle, normal, num) =>
      var x := Intersection(middle, Plus(middle, normal), e.start, e.end);
      if !x.found || !PointOnLineSegment(e.start, e.end, x.point, SegmentEpsilon) then Miss
      else Hit(Aligned(x.point.Minus(middle), normal, num), x.point)
  }

  /** Folding one edge into the best so far: a hit whose measure is not
      above the least so far replaces it. */
  function ScanStep(s: Scanner, e: VEdge, index: int, acc: Best): Best
  {
    var p := ProbeEdge(s, e);
    if p.Hit? && p.measure <= acc.measure then Best(true, p.measure, p.point, index, e) else acc
  }

  /** The scan over the edge indexes of a region, in the enumerator's
      order; reading an index past the edge list throws. */
  function Scan(s: Scanner, edges: seq<VEdge>, indexes: seq<int>, acc: Best): Result<Best>
    decreases |indexes|
  {
    if indexes == [] then Ok(acc)
    else if !(0 <= indexes[0] < |edges|) then Err("index out of range")
    else Scan(s, edges, indexes[1..], ScanStep(s, edges[indexes[0]], indexes[0], acc))
  }

  /** The slot `k` of `indexes` names an edge that is a hit no further than
      `bound`. */
  predicate HitWithin(s: Scanner, edges: seq<VEdge>, indexes: seq<int>, k: int, bound: real)
  {
    0 <= k < |indexes| && 0 <= indexes[k] < |edges| &&
    var p := ProbeEdge(s, edges[indexes[k]]);
    p.Hit? && p.measure <= bound
  }

  /** A scan fails exactly when an index lies outside the edge list. */
  lemma {:induction false} ScanFails(s: Scanner, edges: seq<VEdge>, indexes: seq<int>, acc: Best)
    ensures Scan(s, edges, indexes, acc).Ok? <==> forall k :: 0 <= k < |indexes| ==> 0 <= indexes[k] < |edges|
    decreases |indexes|
  {
    if indexes != [] && 0 <= indexes[0] < |edges| {
      var next := ScanStep(s, edges[indexes[0]], indexes[0], acc);
      ScanFails(s, edges, indexes[1..], next);
      assert forall k :: 1 <= k < |indexes| ==> indexes[k] == indexes[1..][k - 1];
    }
  }

  /** What a scan finds: the measure is the least over the hits and the
      start; something is found exactly when the start had something or
      some hit lies within the start's measure; and what is found either is
      the start or is a hit at one of the indexes with its own measure and
      point. */
  lemma {:induction false} ScanFinds(s: Scanner, edges: seq<VEdge>, indexes: seq<int>, acc: Best)
    requires Scan(s, edges, indexes, acc).Ok?
    ensures var b := Scan(s, edges, indexes, acc).value;
      b.measure <= acc.measure &&
      (forall k :: HitWithin(s, edges, indexes, k, acc.measure) ==> b.measure <= ProbeEdge(s, edges[indexes[k]]).measure) &&
      (b.found <==> acc.found || exists k :: HitWithin(s, edges, indexes, k, acc.measure)) &&
      (b == acc ||
       (b.found && b.index in indexes && 0 <= b.index < |edges| && b.edge == edges[b.index] &&
        ProbeEdge(s, b.edge) == Hit(b.measure, b.point)))
    decreases |indexes|
  {
    if indexes != [] {
      var e := edges[indexes[0]];
      var next := ScanStep(s, e, indexes[0], acc);
      var rest := indexes[1..];
      ScanFinds(s, edges, rest, next);
      var b := Scan(s, edges, indexes, acc).value;
      assert b == Scan(s, edges, rest, next).value;
      forall k | HitWithin(s, edges, indexes, k, acc.measure)
        ensures b.measure <= ProbeEdge(s, edges[indexes[k]]).measure
      {
        if k > 0 {
          assert indexes[k] == rest[k - 1];
          if ProbeEdge(s, edges[indexes[k]]).measure <= next.measure {
            assert HitWithin(s, edges, rest, k - 1, next.measure);
          }
        }
      }
      if b.found && !acc.found {
        if next.found {
          assert HitWithin(s, edges, indexes, 0, acc.measure);
        } else {
          var k :| HitWithin(s, edges, rest, k, next.measure);
          assert HitWithin(s, edges, indexes, k + 1, acc.measure);
        }
      }
      if exists k :: HitWithin(s, edges, indexes, k, acc.measure) {
        var k :| HitWithin(s, edges, indexes, k, acc.measure);
        if k > 0 && !next.found {
          assert HitWithin(s, edges, rest, k - 1, next.measure);
        }
      }
    }
  }

  /** Lines 399-445, RegionCrossing: the scan of the region of `site` for
      the nearest edge crossed strictly ahead of `start` along `dir`,
      other than the current edge. */
  method RegionCrossing(start: Vec2, dir: Vec2, site: VSite, edges: seq<VEdge>, regions: MultiMap, currentEdge: VEdge)
    returns (r: Result<Best>)
    ensures r == Scan(Forward(start, dir, currentEdge), edges, ValuesFor(regions, site.id), NoBest)
  {
    r := ScanRegion(Forward(start, dir, currentEdge), edges, ValuesFor(regions, site.id));
  }

  /** Lines 358-397, RayRegionCrossing: the scan of the region of `site`
      for the edge crossed nearest along the normal of the incoming ray. */
  method RayRegionCrossing(middle: Vec2, normal: Vec2, site: VSite, edges: seq<VEdge>, regions: MultiMap, num: Numerics)
    returns (r: Result<Best>)
    ensures r == Scan(Across(middle, normal, num), edges, ValuesFor(regions, site.id), NoBest)
  {
    r := ScanRegion(Across(middle, normal, num), edges, ValuesFor(regions, site.id));
  }

  /** The enumerator loop both crossings share. */
  method ScanRegion(s: Scanner, edges: seq<VEdge>, indexes: seq<int>) returns (r: Result<Best>)
    ensures r == Scan(s, edges, indexes, NoBest)
  {
    var best := NoBest;
    var i := 0;
    while i < |indexes|
      invariant 0 <= i <= |indexes|
      invariant Scan(s, edges, indexes, NoBest) == Scan(s, edges, indexes[i..], best)
    {
      assert indexes[i..][1..] == indexes[i + 1..];
      var edgeIndex := indexes[i];
      if !(0 <= edgeIndex < |edges|) {
        return Err("index out of range");
      }
      best := ScanStep(s, edges[edgeIndex], edgeIndex, best);
      i := i + 1;
    }
    return Ok(best);
  }

  /** RegionCrossing returns true exactly when some edge of the region,
      other than the current one, is crossed strictly ahead within
      double.MaxValue; then the result is such an edge of the region, and
      no accepted edge is nearer. */
  lemma RegionCrossingFinds(start: Vec2, dir: Vec2, site: VSite, edges: seq<VEdge>, regions: MultiMap, currentEdge: VEdge)
    requires Scan(Forward(start, dir, currentEdge), edges, ValuesFor(regions, site.id), NoBest).Ok?
    ensures var s, vs := Forward(start, dir, currentEdge), ValuesFor(regions, site.id);
      var b := Scan(s, edges, vs, NoBest).value;
      (b.found <==> exists k :: HitWithin(s, edges, vs, k, DoubleMax)) &&
      (b.found ==>
         (site.id, b.index) in regions && 0 <= b.index < |edges| && b.edge == edges[b.index] &&
         !IsEqual(b.edge, currentEdge) && Dot(dir, b.point.Minus(start)) > 0.0 &&
         b.measure == Norm2(b.point.Minus(start)) &&
         forall k :: HitWithin(s, edges, vs, k, DoubleMax) ==> b.measure <= ProbeEdge(s, edges[vs[k]]).measure) &&
      (!b.found ==> b == NoBest)
  {
    ScanFinds(Forward(start, dir, currentEdge), edges, ValuesFor(regions, site.id), NoBest);
  }

  // ------------------------------------------------------------ sides and cuts

  /** GetEdgeSideLeft (lines 447-453): the larger side of the edge's two
      ends with respect to the ray from enterPoint through exitPoint. It is
      1 when an end lies strictly to the left, -1 when both lie strictly to
      the right. */
  function EdgeSideLeft(enterPoint: Vec2, exitPoint: Vec2, e: VEdge): (r: int)
    ensures r == -1 || r == 0 || r == 1
    ensures r == 1 <==>
      Cross(exitPoint.Minus(enterPoint), e.end.Minus(enterPoint)) > 0.0 ||
      Cross(exitPoint.Minus(enterPoint), e.start.Minus(enterPoint)) > 0.0
    ensures r == -1 <==>
      Cross(exitPoint.Minus(enterPoint), e.end.Minus(enterPoint)) < 0.0 &&
      Cross(exitPoint.Minus(enterPoint), e.start.Minus(enterPoint)) < 0.0
  {
    Max(RaySide(enterPoint, exitPoint, e.end), RaySide(enterPoint, exitPoint, e.start))
  }

  /** GetEdgeSideRight (lines 455-461): the smaller side. It is -1 when an
      end lies strictly to the right, 1 when both lie strictly to the left. */
  function EdgeSideRight(enterPoint: Vec2, exitPoint: Vec2, e: VEdge): (r: int)
    ensures r == -1 || r == 0 || r == 1
    ensures r == -1 <==>
      Cross(exitPoint.Minus(enterPoint), e.end.Minus(enterPoint)) < 0.0 ||
      Cross(exitPoint.Minus(enterPoint), e.start.Minus(enterPoint)) < 0.0
    ensures r == 1 <==>
      Cross(exitPoint.Minus(enterPoint), e.end.Minus(enterPoint)) > 0.0 &&
      Cross(exitPoint.Minus(enterPoint), e.start.Minus(enterPoint)) > 0.0
  {
    Min(RaySide(enterPoint, exitPoint, e.end), RaySide(enterPoint, exitPoint, e.start))
  }

  function Max(a: int, b: int): int { if a < b then b else a }
  function Min(a: int, b: int): int { if a < b then a else b }

  /** The two sides mirror each other: the right side of an edge is the
      left side of the edge seen along the reversed ray, negated. */
  lemma EdgeSidesMirror(enterPoint: Vec2, exitPoint: Vec2, e: VEdge)
    ensures EdgeSideRight(enterPoint, exitPoint, e) == -EdgeSideLeft(exitPoint, enterPoint, e)
  {
    assert Cross(enterPoint.Minus(exitPoint), e.end.Minus(exitPoint)) ==
           -Cross(exitPoint.Minus(enterPoint), e.end.Minus(enterPoint));
    assert Cross(enterPoint.Minus(exitPoint), e.start.Minus(exitPoint)) ==
           -Cross(exitPoint.Minus(enterPoint), e.start.Minus(enterPoint));
  }

  /** CutLeftEdge (lines 463-472): the edge the walk leaves through keeps
      its sites and now ends at exitPoint; it starts at enterPoint when the
      walk also entered through it, and otherwise at whichever of its ends
      lies further to the right of the chain's step (its end on a tie). */
  function CutLeftEdge(enterPoint: Vec2, enterEdge: VEdge, exitPoint: Vec2, exitEdge: VEdge): (r: VEdge)
    ensures IsEqual(r, exitEdge) && r.end == exitPoint && r.neighbor == -1
    ensures IsEqual(enterEdge, exitEdge) ==> r.start == enterPoint
    ensures !IsEqual(enterEdge, exitEdge) ==>
      (r.start == exitEdge.start &&
       RaySide(enterPoint, exitPoint, exitEdge.start) < RaySide(enterPoint, exitPoint, exitEdge.end)) ||
      (r.start == exitEdge.end &&
       RaySide(enterPoint, exitPoint, exitEdge.end) <= RaySide(enterPoint, exitPoint, exitEdge.start))
  {
    if IsEqual(enterEdge, exitEdge) then Segment(enterPoint, exitPoint, exitEdge.left, exitEdge.right)
    else if RaySide(enterPoint, exitPoint, exitEdge.start) < RaySide(enterPoint, exitPoint, exitEdge.end)
    then Segment(exitEdge.start, exitPoint, exitEdge.left, exitEdge.right)
    else Segment(exitEdge.end, exitPoint, exitEdge.left, exitEdge.right)
  }

  /** CutRightEdge (lines 474-483): the same with the end lying further to
      the left kept. */
  function CutRightEdge(enterPoint: Vec2, enterEdge: VEdge, exitPoint: Vec2, exitEdge: VEdge): (r: VEdge)
    ensures IsEqual(r, exitEdge) && r.end == exitPoint && r.neighbor == -1
    ensures IsEqual(enterEdge, exitEdge) ==> r.start == enterPoint
    ensures !IsEqual(enterEdge, exitEdge) ==>
      (r.start == exitEdge.start &&
       RaySide(enterPoint, exitPoint, exitEdge.start) > RaySide(enterPoint, exitPoint, exitEdge.end)) ||
      (r.start == exitEdge.end &&
       RaySide(enterPoint, exitPoint, exitEdge.end) >= RaySide(enterPoint, exitPoint, exitEdge.start))
  {
    if IsEqual(enterEdge, exitEdge) then Segment(enterPoint, exitPoint, exitEdge.left, exitEdge.right)
    else if RaySide(enterPoint, exitPoint, exitEdge.start) > RaySide(enterPoint, exitPoint, exitEdge.end)
    then Segment(exitEdge.start, exitPoint, exitEdge.left, exitEdge.right)
    else Segment(exitEdge.end, exitPoint, exitEdge.left, exitEdge.right)
  }

  /** A cut is the edge from enterPoint to exitPoint when the walk enters
      and leaves through the same edge, and a cut edge cut again at the
      same exit is unchanged when entered through itself. */
  lemma CutSpansRegion(enterPoint: Vec2, exitPoint: Vec2, e: VEdge)
    ensures CutLeftEdge(enterPoint, e, exitPoint, e) == Segment(enterPoint, exitPoint, e.left, e.right)
    ensures CutRightEdge(enterPoint, e, exitPoint, e) == Segment(enterPoint, exitPoint, e.left, e.right)
    ensures var c := CutLeftEdge(enterPoint, Null, exitPoint, e);
      CutLeftEdge(c.start, c, exitPoint, c) == c
  {
  }

  // ------------------------------------------------------------ removal sets

  /** Which test flags an edge of a region: the left diagram's (side above
      0) or the right diagram's (side below the threshold, which is 1 for
      the incoming ray and 0 in the walk). */
  datatype Flagging = LeftTest | RightTest(threshold: int)

  predicate Flags(test: Flagging, enterPoint: Vec2, exitPoint: Vec2, e: VEdge)
  {
    match test
    case LeftTest => EdgeSideLeft(enterPoint, exitPoint, e) > 0
    case RightTest(threshold) => EdgeSideRight(enterPoint, exitPoint, e) < threshold
  }

  /** The indexes a flagging loop adds: those of the region other than the
      two skipped ones, within the edge list, whose edge the test flags. */
  ghost function Flagged(edges: seq<VEdge>, indexes: seq<int>, skip1: int, skip2: int, test: Flagging,
                         enterPoint: Vec2, exitPoint: Vec2): set<int>
  {
    set k | k in indexes && k != skip1 && k != skip2 && 0 <= k < |edges| && Flags(test, enterPoint, exitPoint, edges[k])
  }

  /** Every index of the region is skipped or names an edge. */
  predicate Readable(indexes: seq<int>, skip1: int, skip2: int, count: int)
  {
    forall k :: 0 <= k < |indexes| ==> indexes[k] == skip1 || indexes[k] == skip2 || 0 <= indexes[k] < count
  }

  /** Lines 140-147, 163-170, 238-246 and 283-291: every index of the
      region of `siteId` other than skip1 and skip2 whose edge the test
      flags is added to the removal set (TryAdd keeps it a set); reading an
      index past the edge list throws. */
  method FlagRegion(edges: seq<VEdge>, regions: MultiMap, siteId: int, skip1: int, skip2: int, test: Flagging,
                    enterPoint: Vec2, exitPoint: Vec2, flagged: set<int>) returns (r: Result<set<int>>)
    ensures r.Ok? <==> Readable(ValuesFor(regions, siteId), skip1, skip2, |edges|)
    ensures r.Ok? ==>
      r.value == flagged + Flagged(edges, ValuesFor(regions, siteId), skip1, skip2, test, enterPoint, exitPoint)
  {
    var vs := ValuesFor(regions, siteId);
    var acc := flagged;
    var i := 0;
    while i < |vs|
      invariant 0 <= i <= |vs|
      invariant Readable(vs[..i], skip1, skip2, |edges|)
      invariant acc == flagged + Flagged(edges, vs[..i], skip1, skip2, test, enterPoint, exitPoint)
    {
      var k := vs[i];
      assert vs[..i + 1] == vs[..i] + [k];
      if k != skip1 && k != skip2 {
        if !(0 <= k < |edges|) {
          assert !Readable(vs, skip1, skip2, |edges|) by {
            assert !(vs[i] == skip1 || vs[i] == skip2 || 0 <= vs[i] < |edges|);
          }
          return Err("index out of range");
        }
        if Flags(test, enterPoint, exitPoint, edges[k]) {
          acc := acc + {k};
        }
      }
      i := i + 1;
    }
    assert vs[..i] == vs;
    return Ok(acc);
  }

  // ------------------------------------------------------------ removal

  /** The edges whose slots are not flagged, in their order. */
  function Unflagged(edges: seq<VEdge>, flagged: set<int>): (r: seq<VEdge>)
    ensures |r| <= |edges|
  {
    KeptBelow(edges, flagged, |edges|)
  }

  /** The edges of the first n slots that are not flagged, in their order. */
  function KeptBelow(edges: seq<VEdge>, flagged: set<int>, n: nat): (r: seq<VEdge>)
    requires n <= |edges|
    ensures |r| <= n
  {
    if n == 0 then []
    else KeptBelow(edges, flagged, n - 1) + (if n - 1 in flagged then [] else [edges[n - 1]])
  }

  /** Flags at or past slot n change nothing below it. */
  lemma {:induction false} KeptBeyond(edges: seq<VEdge>, flagged: set<int>, k: int, n: nat)
    requires n <= |edges| && k >= n
    ensures KeptBelow(edges, flagged + {k}, n) == KeptBelow(edges, flagged, n)
  {
    if n > 0 {
      KeptBeyond(edges, flagged, k, n - 1);
    }
  }

  /** `after` is `before` with one copy of x taken out. */
  ghost predicate DropsOnce<T>(before: seq<T>, after: seq<T>, x: T)
  {
    x in multiset(before) && multiset(after) == multiset(before) - multiset{x}
  }

  /** Flagging one more slot below n drops its edge once. */
  lemma {:induction false} KeptDrop(edges: seq<VEdge>, flagged: set<int>, k: int, n: nat)
    requires n <= |edges| && 0 <= k < n && k !in flagged
    ensures DropsOnce(KeptBelow(edges, flagged, n), KeptBelow(edges, flagged + {k}, n), edges[k])
  {
    if k < n - 1 {
      KeptDrop(edges, flagged, k, n - 1);
      KeptDropEarlier(edges, flagged, k, n);
    } else {
      KeptBeyond(edges, flagged, k, n - 1);
      KeptDropLast(edges, flagged, k, n);
    }
  }

  /** The step of KeptDrop for a slot below the last one. */
  lemma KeptDropEarlier(edges: seq<VEdge>, flagged: set<int>, k: int, n: nat)
    requires n <= |edges| && 0 <= k < n - 1 && k !in flagged
    requires DropsOnce(KeptBelow(edges, flagged, n - 1), KeptBelow(edges, flagged + {k}, n - 1), edges[k])
    ensures DropsOnce(KeptBelow(edges, flagged, n), KeptBelow(edges, flagged + {k}, n), edges[k])
  {
    var tail := if n - 1 in flagged then [] else [edges[n - 1]];
    assert (n - 1 in flagged + {k}) == (n - 1 in flagged);
    var a := KeptBelow(edges, flagged, n - 1);
    var b := KeptBelow(edges, flagged + {k}, n - 1);
    assert KeptBelow(edges, flagged, n) == a + tail;
    assert KeptBelow(edges, flagged + {k}, n) == b + tail;
    DropBeforeTail(a, b, tail, edges[k]);
  }

  /** The step of KeptDrop for the last slot. */
  lemma KeptDropLast(edges: seq<VEdge>, flagged: set<int>, k: int, n: nat)
    requires n <= |edges| && k == n - 1 && 0 <= k && k !in flagged
    requires KeptBelow(edges, flagged + {k}, n - 1) == KeptBelow(edges, flagged, n - 1)
    ensures DropsOnce(KeptBelow(edges, flagged, n), KeptBelow(edges, flagged + {k}, n), edges[k])
  {
    var a := KeptBelow(edges, flagged, n - 1);
    assert n - 1 in flagged + {k};
    assert KeptBelow(edges, flagged, n) == a + [edges[k]];
    assert KeptBelow(edges, flagged + {k}, n) == a;
    DropLast(a, edges[k]);
  }

  /** Removing one copy of x before a common tail. */
  lemma DropBeforeTail<T>(a: seq<T>, b: seq<T>, tail: seq<T>, x: T)
    requires DropsOnce(a, b, x)
    ensures DropsOnce(a + tail, b + tail, x)
  {
    assert multiset(a + tail) == multiset(a) + multiset(tail);
    assert multiset(b + tail) == multiset(b) + multiset(tail);
  }

  /** Removing the last element's copy. */
  lemma DropLast<T>(a: seq<T>, x: T)
    ensures DropsOnce(a + [x], a, x)
  {
    assert multiset(a + [x]) == multiset(a) + multiset{x};
  }

  /** Flagging one more slot in range drops its edge once. */
  lemma UnflaggedDrop(edges: seq<VEdge>, flagged: set<int>, k: int)
    requires 0 <= k < |edges| && k !in flagged
    ensures edges[k] in multiset(Unflagged(edges, flagged))
    ensures multiset(Unflagged(edges, flagged + {k})) == multiset(Unflagged(edges, flagged)) - multiset{edges[k]}
  {
    KeptDrop(edges, flagged, k, |edges|);
  }

  /** Without flags nothing is dropped. */
  lemma {:induction false} KeptNone(edges: seq<VEdge>, n: nat)
    requires n <= |edges|
    ensures KeptBelow(edges, {}, n) == edges[..n]
  {
    if n > 0 {
      KeptNone(edges, n - 1);
      assert edges[..n - 1] + [edges[n - 1]] == edges[..n];
    }
  }

  /** The slots flagged lie in [lo, n): there are at most n - lo of them. */
  lemma {:induction false} RangeSetBound(s: set<int>, lo: int, n: int)
    requires forall k :: k in s ==> lo <= k < n
    ensures |s| <= if lo < n then n - lo else 0
    decreases n - lo
  {
    if lo < n {
      var t := s - {lo};
      RangeSetBound(t, lo + 1, n);
      assert s <= t + {lo};
    } else {
      assert s == {};
    }
  }

  /** Lines 311-316: the flagged indexes, sorted, are removed by
      RemoveAtSwapBack from the largest down, so that each removal only
      moves an edge that is kept into a slot below the ones already
      removed. An index outside the list throws. The loop visits the slots
      from the top down and removes those flagged: the same removals in the
      same order. */
  method RemoveFlagged(edges: seq<VEdge>, flagged: set<int>) returns (r: Result<seq<VEdge>>)
    ensures r.Ok? <==> forall k :: k in flagged ==> 0 <= k < |edges|
    ensures r.Ok? ==> |r.value| == |edges| - |flagged| &&
                      multiset(r.value) == multiset(Unflagged(edges, flagged))
  {
    if !(forall k :: k in flagged ==> 0 <= k < |edges|) {
      return Err("index out of range");
    }
    var cur := edges;
    var i := |edges|;
    ghost var removed: set<int> := {};
    RemovalStart(edges, flagged);
    while i > 0
      invariant 0 <= i <= |edges|
      invariant RemovedFrom(flagged, removed, i) && KeptList(edges, cur, removed, i)
    {
      i := i - 1;
      RemovalStep(edges, flagged, cur, removed, i);
      if i in flagged {
        cur := RemoveAtSwapBack(cur, i);
        removed := removed + {i};
      }
    }
    KeptAll(edges, cur, removed, flagged);
    return Ok(cur);
  }

  /** The flags removed so far are exactly those at or above slot i. */
  ghost predicate RemovedFrom(flagged: set<int>, removed: set<int>, i: int)
  {
    (forall k :: k in removed ==> k in flagged && i <= k) &&
    (forall k :: k in flagged && i <= k ==> k in removed)
  }

  /** Before the loop nothing is removed and the list is the input. */
  lemma RemovalStart(edges: seq<VEdge>, flagged: set<int>)
    requires forall k :: k in flagged ==> 0 <= k < |edges|
    ensures RemovedFrom(flagged, {}, |edges|) && KeptList(edges, edges, {}, |edges|)
  {
    KeptNone(edges, |edges|);
    assert edges[..|edges|] == edges;
  }

  /** One turn of the loop: slot i is removed when flagged, and the loop
      state moves down to i. */
  lemma RemovalStep(edges: seq<VEdge>, flagged: set<int>, cur: seq<VEdge>, removed: set<int>, i: int)
    requires 0 <= i < |edges| && forall k :: k in flagged ==> 0 <= k < |edges|
    requires RemovedFrom(flagged, removed, i + 1) && KeptList(edges, cur, removed, i + 1)
    ensures i in flagged ==> i < |cur| && RemovedFrom(flagged, removed + {i}, i) &&
                             KeptList(edges, RemoveAtSwapBack(cur, i), removed + {i}, i)
    ensures i !in flagged ==> RemovedFrom(flagged, removed, i) && KeptList(edges, cur, removed, i)
  {
    RangeSetBound(removed, i + 1, |edges|);
    if i in flagged {
      KeptStep(edges, cur, removed, i + 1, i);
    }
  }

  /** The list holds the edges not yet removed, untouched below `low`. */
  ghost predicate KeptList(edges: seq<VEdge>, cur: seq<VEdge>, removed: set<int>, low: int)
  {
    |cur| == |edges| - |removed| &&
    (forall j :: 0 <= j < low && j < |cur| ==> cur[j] == edges[j]) &&
    multiset(cur) == multiset(Unflagged(edges, removed))
  }

  /** Once every flag is removed the list holds the unflagged edges. */
  lemma KeptAll(edges: seq<VEdge>, cur: seq<VEdge>, removed: set<int>, flagged: set<int>)
    requires KeptList(edges, cur, removed, 0) && RemovedFrom(flagged, removed, 0)
    requires forall k :: k in flagged ==> 0 <= k
    ensures |cur| == |edges| - |flagged| && multiset(cur) == multiset(Unflagged(edges, flagged))
  {
    forall k | k in flagged ensures k in removed {}
    forall k | k in removed ensures k in flagged {}
    assert removed == flagged;
  }

  /** Removing a slot below the untouched bound drops its edge from the
      kept ones. */
  lemma KeptStep(edges: seq<VEdge>, cur: seq<VEdge>, removed: set<int>, low: int, k: int)
    requires KeptList(edges, cur, removed, low)
    requires 0 <= k < |cur| && k < low && k !in removed
    ensures KeptList(edges, RemoveAtSwapBack(cur, k), removed + {k}, k)
  {
    UnflaggedDrop(edges, removed, k);
    var next := RemoveAtSwapBack(cur, k);
    assert multiset(next) == multiset(cur) - multiset{cur[k]};
    assert cur[k] == edges[k];
  }

  // ------------------------------------------------------------ assembly

  /** The regions of a list grow by one edge's two entries. */
  lemma RegionsOfNext(s: seq<VEdge>, k: int)
    requires 0 <= k < |s|
    ensures RegionsOf(s[..k + 1]) == MultiAdd(MultiAdd(RegionsOf(s[..k]), s[k].left, k), s[k].right, k)
  {
    assert s[..k + 1][..k] == s[..k];
  }

  /** One of the loops at lines 319-339: the edges of slots from..to of
      the joined list go into the regions under their indexes. */
  method AddRegions(edges: seq<VEdge>, from: int, to: int, regions: MultiMap) returns (r: MultiMap)
    requires 0 <= from <= to <= |edges| && regions == RegionsOf(edges[..from])
    ensures r == RegionsOf(edges[..to])
  {
    r := regions;
    var index := from;
    while index < to
      invariant from <= index <= to && r == RegionsOf(edges[..index])
    {
      RegionsOfNext(edges, index);
      r := MultiAdd(MultiAdd(r, edges[index].left, index), edges[index].right, index);
      index := index + 1;
    }
  }

  /** Lines 318-340: Edges is the kept left edges, the new edges and the
      kept right edges, and Regions gets both sites of every edge under
      its index in the joined list. */
  method Assemble(left: seq<VEdge>, middle: seq<VEdge>, right: seq<VEdge>) returns (edges: seq<VEdge>, regions: MultiMap)
    ensures edges == left + middle + right && regions == RegionsOf(edges)
  {
    edges := left + middle + right;
    assert edges[..0] == [];
    regions := AddRegions(edges, 0, |left|, []);
    regions := AddRegions(edges, |left|, |left| + |middle|, regions);
    regions := AddRegions(edges, |left| + |middle|, |edges|, regions);
    assert edges[..|edges|] == edges;
  }

  // ------------------------------------------------------------ the walk

  /** What the walk keeps of one diagram: the site whose region it is in,
      the edge list with the cuts written so far, and the indexes flagged
      for removal (LeftEdgeIndexesToRemove / RightEdgeIndexesToRemove). */
  datatype Front = Front(site: VSite, edges: seq<VEdge>, remove: set<int>)

  /** The locals of Execute's walk: the two fronts, currentPoint,
      currentEdge, newEdges and the three region-enter maps, which are
      keyed by site id across both diagrams. */
  datatype Walk = Walk(left: Front, right: Front, point: Vec2, edge: VEdge, newEdges: seq<VEdge>,
                       enterPoints: map<int, Vec2>, enterEdges: map<int, VEdge>, enterIndexes: map<int, int>)

  const NoCrossing := "Voronoi merge error: no crossing"

  function SideOf(w: Walk, isLeft: bool): Front { if isLeft then w.left else w.right }

  /** The site across edge `e` from the site `id`. */
  function Other(e: VEdge, id: int): int { if e.left == id then e.right else e.left }

  /** (a + b) * 0.5. */
  function Midpoint(a: Vec2, b: Vec2): Vec2 { Vec2((a.x + b.x) * 0.5, (a.y + b.y) * 0.5) }

  /** The direction the chain runs in: the clockwise perpendicular of
      right.Point - left.Point. */
  function Heading(left: VSite, right: VSite): Vec2
  {
    Perpendicular(Point(right).Minus(Point(left)), false)
  }

  function CutFor(isLeft: bool, enterPoint: Vec2, enterEdge: VEdge, exitPoint: Vec2, exitEdge: VEdge): VEdge
  {
    if isLeft then CutLeftEdge(enterPoint, enterEdge, exitPoint, exitEdge)
    else CutRightEdge(enterPoint, enterEdge, exitPoint, exitEdge)
  }

  /** Sites[SiteIdIndexes[id]]: the map's indexer throws on a missing key
      and the array's on an index outside it. Over an IdIndexed map it
      finds the site with that id. */
  function SiteOf(sites: seq<VSite>, idIndexes: map<int, int>, id: int): (r: Result<VSite>)
    ensures r.Ok? <==> id in idIndexes && 0 <= idIndexes[id] < |sites|
    ensures r.Ok? ==> r.value == sites[idIndexes[id]]
  {
    if id !in idIndexes then Err("key not present in the hash map")
    else if !(0 <= idIndexes[id] < |sites|) then Err("index out of range")
    else Ok(sites[idIndexes[id]])
  }

  /** Over an IdIndexed map the lookup succeeds exactly for the ids of the
      list and finds a site with that id. */
  lemma SiteOfFinds(sites: seq<VSite>, idIndexes: map<int, int>, id: int)
    requires IdIndexed(sites, idIndexes)
    ensures SiteOf(sites, idIndexes, id).Ok? <==> exists i :: 0 <= i < |sites| && sites[i].id == id
    ensures SiteOf(sites, idIndexes, id).Ok? ==> SiteOf(sites, idIndexes, id).value.id == id
  {
  }

  // ---- incoming ray

  /** RayRegionCrossing over the region of `site` in `part`, across the
      perpendicular bisector of the upper tangent. */
  ghost function RayScan(part: Part, site: VSite, lUp: VSite, rUp: VSite, num: Numerics): Result<Best>
  {
    Scan(Across(Midpoint(Point(lUp), Point(rUp)), Heading(lUp, rUp), num), part.edges,
         ValuesFor(part.regions, site.id), NoBest)
  }

  /** When entering through the incoming ray's crossing `b` of `site`'s
      region in `part` does not throw: the crossed index names an edge,
      the region names only edges besides it, and the site across the
      crossed edge is known. */
  ghost predicate CanEnter(part: Part, site: VSite, b: Best)
  {
    0 <= b.index < |part.edges| &&
    Readable(ValuesFor(part.regions, site.id), b.index, b.index, |part.edges|) &&
    SiteOf(part.sites, part.idIndexes, Other(b.edge, site.id)).Ok?
  }

  /** The front of the side the incoming ray crosses first, whose far end
      is `end`: the crossed edge is cut from `end` to the crossing, the
      region's other edges on the far side of the ray are flagged (right
      threshold 1), and the front moves to the site across the crossed
      edge. */
  ghost function Entered(part: Part, site: VSite, b: Best, isLeft: bool, end: Vec2): Front
    requires CanEnter(part, site, b)
  {
    var edges := part.edges[b.index := CutFor(isLeft, end, Null, b.point, b.edge)];
    var test := if isLeft then LeftTest else RightTest(1);
    Front(SiteOf(part.sites, part.idIndexes, Other(b.edge, site.id)).value, edges,
          Flagged(edges, ValuesFor(part.regions, site.id), b.index, b.index, test, end, b.point))
  }

  /** The branch of lines 136-156 (isLeft) or 158-177. */
  method Enter(part: Part, site: VSite, b: Best, isLeft: bool, end: Vec2) returns (r: Result<Front>)
    ensures r.Ok? <==> CanEnter(part, site, b)
    ensures r.Ok? ==> r.value == Entered(part, site, b, isLeft, end)
  {
    var cut := CutFor(isLeft, end, Null, b.point, b.edge);
    if !(0 <= b.index < |part.edges|) {
      return Err("index out of range");
    }
    var edges := part.edges[b.index := cut];
    var flagged := FlagRegion(edges, part.regions, site.id, b.index, b.index,
                              if isLeft then LeftTest else RightTest(1), end, b.point, {});
    if flagged.Err? {
      return Err(flagged.message);
    }
    var next := SiteOf(part.sites, part.idIndexes, Other(b.edge, site.id));
    if next.Err? {
      return Err(next.message);
    }
    r := Ok(Front(next.value, edges, flagged.value));
  }

  /** When the incoming ray goes through without a throw: both scans read
      only edges of their lists, and the side chosen (left when its
      distance is the smaller) can be entered. */
  ghost predicate CanStart(L: Part, R: Part, lUp: VSite, rUp: VSite, num: Numerics)
  {
    var lc := RayScan(L, lUp, lUp, rUp, num);
    var rc := RayScan(R, rUp, lUp, rUp, num);
    lc.Ok? && rc.Ok? &&
    if lc.value.measure < rc.value.measure then CanEnter(L, lUp, lc.value) else CanEnter(R, rUp, rc.value)
  }

  /** The walk after the incoming ray whose far end is `end` (lines
      123-185): the chosen side's front is entered, the other one stays at
      its tangent site; the current point is the crossing and the current
      edge the cut one; the enter maps hold the crossing, the cut edge and
      its index for the new site and `end`, Null and -1 for both tangent
      sites; newEdges is the ray from the crossing to `end`. */
  ghost function Begun(L: Part, R: Part, lUp: VSite, rUp: VSite, num: Numerics, end: Vec2): Walk
    requires CanStart(L, R, lUp, rUp, num)
  {
    var lc := RayScan(L, lUp, lUp, rUp, num).value;
    var rc := RayScan(R, rUp, lUp, rUp, num).value;
    var isLeft := lc.measure < rc.measure;
    var b := if isLeft then lc else rc;
    var moved := if isLeft then Entered(L, lUp, b, true, end) else Entered(R, rUp, b, false, end);
    var cut := CutFor(isLeft, end, Null, b.point, b.edge);
    Walk(if isLeft then moved else Front(lUp, L.edges, {}),
         if isLeft then Front(rUp, R.edges, {}) else moved,
         b.point, cut, [Segment(b.point, end, lUp.id, rUp.id)],
         map[moved.site.id := b.point][lUp.id := end][rUp.id := end],
         map[moved.site.id := cut][lUp.id := Null][rUp.id := Null],
         map[moved.site.id := b.index][lUp.id := -1][rUp.id := -1])
  }

  /** Lines 123-185: the incoming ray from the upper tangent sites lUp and
      rUp. */
  method Start(L: Part, R: Part, lUp: VSite, rUp: VSite, num: Numerics) returns (r: Result<Walk>)
    ensures r.Ok? <==> CanStart(L, R, lUp, rUp, num)
    ensures r.Ok? ==>
      (|r.value.newEdges| == 1 &&
       r.value == Begun(L, R, lUp, rUp, num, r.value.newEdges[0].end) &&
       RayEnds(r.value.point, Point(rUp), Point(lUp), r.value.newEdges[0].end))
  {
    var middle := Midpoint(Point(lUp), Point(rUp));
    var rayDir := Heading(lUp, rUp);
    var lc := RayRegionCrossing(middle, rayDir, lUp, L.edges, L.regions, num);
    if lc.Err? {
      return Err(lc.message);
    }
    var rc := RayRegionCrossing(middle, rayDir, rUp, R.edges, R.regions, num);
    if rc.Err? {
      return Err(rc.message);
    }
    var isLeft := lc.value.measure < rc.value.measure;
    var b := if isLeft then lc.value else rc.value;
    var end := BuildRayEnd(b.point, Point(rUp), Point(lUp));
    var startEdge := Segment(b.point, end, lUp.id, rUp.id);
    var cut := CutFor(isLeft, end, Null, b.point, b.edge);
    var entered;
    if isLeft {
      entered := Enter(L, lUp, b, true, end);
    } else {
      entered := Enter(R, rUp, b, false, end);
    }
    if entered.Err? {
      return Err(entered.message);
    }
    var moved := entered.value;
    r := Ok(Walk(if isLeft then moved else Front(lUp, L.edges, {}),
                 if isLeft then Front(rUp, R.edges, {}) else moved,
                 b.point, cut, [startEdge],
                 map[moved.site.id := b.point][lUp.id := end][rUp.id := end],
                 map[moved.site.id := cut][lUp.id := Null][rUp.id := Null],
                 map[moved.site.id := b.index][lUp.id := -1][rUp.id := -1]));
  }

  // ---- one step

  /** RegionCrossing from the current point along the chain's heading over
      the region the front of one side is in, skipping the current edge. */
  ghost function Crossed(w: Walk, part: Part, isLeft: bool): Result<Best>
  {
    var f := SideOf(w, isLeft);
    Scan(Forward(w.point, Heading(w.left.site, w.right.site), w.edge), f.edges, ValuesFor(part.regions, f.site.id), NoBest)
  }

  /** When advancing one side through its crossing `b` does not throw: the
      site across the crossed edge is known, the enter maps hold the
      front's site, the crossed index names an edge and the region names
      only edges besides the crossed and the entered one. */
  ghost predicate CanAdvance(w: Walk, part: Part, b: Best, isLeft: bool)
  {
    var f := SideOf(w, isLeft);
    var id := f.site.id;
    SiteOf(part.sites, part.idIndexes, Other(b.edge, id)).Ok? &&
    id in w.enterPoints && id in w.enterEdges && id in w.enterIndexes &&
    0 <= b.index < |f.edges| &&
    Readable(ValuesFor(part.regions, id), b.index, w.enterIndexes[id], |f.edges|)
  }

  /** The walk after one side advances through `b` (lines 209-247 and
      267-292): the chain gains the edge from the current point to the
      crossing, tagged with both fronts' sites; the crossed edge is cut
      between the region's enter point and the crossing; the region's other
      edges beyond the chain are flagged (left above 0, right below 0); the
      front moves across the crossed edge and enters its new region there.
      The other front is untouched. */
  ghost function Advanced(w: Walk, part: Part, b: Best, isLeft: bool): Walk
    requires CanAdvance(w, part, b, isLeft)
  {
    var f := SideOf(w, isLeft);
    var id := f.site.id;
    var next := SiteOf(part.sites, part.idIndexes, Other(b.edge, id)).value;
    var edges := f.edges[b.index := CutFor(isLeft, w.enterPoints[id], w.enterEdges[id], b.point, b.edge)];
    var test := if isLeft then LeftTest else RightTest(0);
    var moved := Front(next, edges, f.remove + Flagged(edges, ValuesFor(part.regions, id), b.index, w.enterIndexes[id],
                                                         test, w.enterPoints[id], b.point));
    Walk(if isLeft then moved else w.left, if isLeft then w.right else moved, b.point, b.edge,
         w.newEdges + [Segment(w.point, b.point, w.left.site.id, w.right.site.id)],
         w.enterPoints[next.id := b.point], w.enterEdges[next.id := b.edge], w.enterIndexes[next.id := b.index])
  }

  /** One side's advance, from "var leftId" to the region enter. */
  method Advance(w: Walk, part: Part, b: Best, isLeft: bool) returns (r: Result<Walk>)
    ensures r.Ok? <==> CanAdvance(w, part, b, isLeft)
    ensures r.Ok? ==> r.value == Advanced(w, part, b, isLeft)
  {
    var f := SideOf(w, isLeft);
    var id := f.site.id;
    var newEdge := Segment(w.point, b.point, w.left.site.id, w.right.site.id);
    var next := SiteOf(part.sites, part.idIndexes, Other(b.edge, id));
    if next.Err? {
      return Err(next.message);
    }
    if id !in w.enterPoints || id !in w.enterEdges || id !in w.enterIndexes {
      return Err("key not present in the hash map");
    }
    var enterPoint, enterEdge, enterIndex := w.enterPoints[id], w.enterEdges[id], w.enterIndexes[id];
    if !(0 <= b.index < |f.edges|) {
      return Err("index out of range");
    }
    var edges := f.edges[b.index := CutFor(isLeft, enterPoint, enterEdge, b.point, b.edge)];
    var flagged := FlagRegion(edges, part.regions, id, b.index, enterIndex,
                              if isLeft then LeftTest else RightTest(0), enterPoint, b.point, f.remove);
    if flagged.Err? {
      return Err(flagged.message);
    }
    var moved := Front(next.value, edges, flagged.value);
    r := Ok(Walk(if isLeft then moved else w.left, if isLeft then w.right else moved, b.point, b.edge,
                 w.newEdges + [newEdge],
                 w.enterPoints[next.value.id := b.point], w.enterEdges[next.value.id := b.edge],
                 w.enterIndexes[next.value.id := b.index]));
  }

  /** When a step of the walk does not throw: both scans read only edges
      of their lists, one of them crossed, and the side whose crossing is
      strictly nearer (the right one on a tie) can advance. */
  ghost predicate CanStep(w: Walk, L: Part, R: Part)
  {
    var lc := Crossed(w, L, true);
    var rc := Crossed(w, R, false);
    lc.Ok? && rc.Ok? && (lc.value.found || rc.value.found) &&
    if lc.value.measure < rc.value.measure then CanAdvance(w, L, lc.value, true)
    else CanAdvance(w, R, rc.value, false)
  }

  /** The walk after one step. */
  ghost function Next(w: Walk, L: Part, R: Part): Walk
    requires CanStep(w, L, R)
  {
    var lc := Crossed(w, L, true).value;
    var rc := Crossed(w, R, false).value;
    if lc.measure < rc.measure then Advanced(w, L, lc, true) else Advanced(w, R, rc, false)
  }

  /** Lines 190-298, one turn of the walk: both regions are scanned, "no
      crossing" is thrown when neither is crossed, and the nearer side
      advances. */
  method WalkStep(w: Walk, L: Part, R: Part) returns (r: Result<Walk>)
    ensures r.Ok? <==> CanStep(w, L, R)
    ensures r.Ok? ==> r.value == Next(w, L, R)
    ensures (Crossed(w, L, true).Ok? && Crossed(w, R, false).Ok? &&
             !Crossed(w, L, true).value.found && !Crossed(w, R, false).value.found) ==> r == Err(NoCrossing)
  {
    var perp := Heading(w.left.site, w.right.site);
    var lc := RegionCrossing(w.point, perp, w.left.site, w.left.edges, L.regions, w.edge);
    if lc.Err? {
      return Err(lc.message);
    }
    var rc := RegionCrossing(w.point, perp, w.right.site, w.right.edges, R.regions, w.edge);
    if rc.Err? {
      return Err(rc.message);
    }
    if !lc.value.found && !rc.value.found {
      return Err(NoCrossing);
    }
    if lc.value.measure < rc.value.measure {
      r := Advance(w, L, lc.value, true);
    } else {
      r := Advance(w, R, rc.value, false);
    }
  }

  // ---- what the walk keeps

  /** The walk's invariant: the edge lists keep their lengths (edges are
      only overwritten), the flagged indexes name edges of their list, and
      the enter maps hold both fronts' sites. */
  ghost predicate Tracked(w: Walk, L: Part, R: Part)
  {
    |w.left.edges| == |L.edges| && |w.right.edges| == |R.edges| &&
    (forall k :: k in w.left.remove ==> 0 <= k < |w.left.edges|) &&
    (forall k :: k in w.right.remove ==> 0 <= k < |w.right.edges|) &&
    w.left.site.id in w.enterPoints && w.left.site.id in w.enterEdges && w.left.site.id in w.enterIndexes &&
    w.right.site.id in w.enterPoints && w.right.site.id in w.enterEdges && w.right.site.id in w.enterIndexes
  }

  /** The incoming ray sets up the invariant. */
  lemma BegunTracked(L: Part, R: Part, lUp: VSite, rUp: VSite, num: Numerics, end: Vec2)
    requires CanStart(L, R, lUp, rUp, num)
    ensures Tracked(Begun(L, R, lUp, rUp, num, end), L, R)
  {
  }

  /** Every step keeps the invariant. */
  lemma NextTracked(w: Walk, L: Part, R: Part)
    requires CanStep(w, L, R) && Tracked(w, L, R)
    ensures Tracked(Next(w, L, R), L, R)
  {
  }

  /** With the invariant a step never throws for a missing enter key: it
      throws only when a scan reads outside its list, when neither side is
      crossed, or when the chosen crossing names no edge, leaves an index
      outside the list in the region, or leads to an unknown site. */
  lemma StepThrows(w: Walk, L: Part, R: Part)
    requires Tracked(w, L, R)
    ensures CanStep(w, L, R) <==>
      var lc := Crossed(w, L, true);
      var rc := Crossed(w, R, false);
      lc.Ok? && rc.Ok? && (lc.value.found || rc.value.found) &&
      var isLeft := lc.value.measure < rc.value.measure;
      var b := if isLeft then lc.value else rc.value;
      var part := if isLeft then L else R;
      var f := SideOf(w, isLeft);
      SiteOf(part.sites, part.idIndexes, Other(b.edge, f.site.id)).Ok? &&
      0 <= b.index < |f.edges| &&
      Readable(ValuesFor(part.regions, f.site.id), b.index, w.enterIndexes[f.site.id], |f.edges|)
  {
  }

  /** What one step does: newEdges gains exactly one edge, from the old
      current point to the new one and tagged with the old fronts' sites;
      the new current point is the crossing of the side whose distance is
      strictly the smaller (the right one on a tie); only that side's front
      moves, to the site across the crossed edge, which over an IdIndexed
      site map is the site with that id. */
  lemma StepShape(w: Walk, L: Part, R: Part)
    requires CanStep(w, L, R)
    ensures var w2 := Next(w, L, R);
      var lc := Crossed(w, L, true).value;
      var rc := Crossed(w, R, false).value;
      w2.newEdges == w.newEdges + [Segment(w.point, w2.point, w.left.site.id, w.right.site.id)] &&
      (lc.measure < rc.measure ==>
         w2.point == lc.point && w2.edge == lc.edge && w2.right == w.right &&
         (IdIndexed(L.sites, L.idIndexes) ==> w2.left.site.id == Other(lc.edge, w.left.site.id))) &&
      (!(lc.measure < rc.measure) ==>
         w2.point == rc.point && w2.edge == rc.edge && w2.left == w.left &&
         (IdIndexed(R.sites, R.idIndexes) ==> w2.right.site.id == Other(rc.edge, w.right.site.id)))
  {
  }

  /** The side a step advances was crossed: its scan found an edge of the
      region of its front's site, other than the current edge, strictly
      ahead along the heading, and no edge of that region is crossed
      nearer. */
  lemma StepCrosses(w: Walk, L: Part, R: Part)
    requires CanStep(w, L, R)
    ensures var lc := Crossed(w, L, true).value;
      var rc := Crossed(w, R, false).value;
      var isLeft := lc.measure < rc.measure;
      var b := if isLeft then lc else rc;
      var f := SideOf(w, isLeft);
      var regions := if isLeft then L.regions else R.regions;
      b.found && (f.site.id, b.index) in regions && 0 <= b.index < |f.edges| && b.edge == f.edges[b.index] &&
      !IsEqual(b.edge, w.edge) && Dot(Heading(w.left.site, w.right.site), b.point.Minus(w.point)) > 0.0
  {
    RegionCrossingFinds(w.point, Heading(w.left.site, w.right.site), w.left.site, w.left.edges, L.regions, w.edge);
    RegionCrossingFinds(w.point, Heading(w.left.site, w.right.site), w.right.site, w.right.edges, R.regions, w.edge);
  }

  // ------------------------------------------------------------ execute

  /** The walk has reached the lower tangent (line 188; sites compare by
      id). */
  predicate AtEnd(w: Walk, h: ConvexHull.MergedHull)
  {
    w.left.site.id == h.leftLower.id && w.right.site.id == h.rightLower.id
  }

  /** `trace` is a run of the walk: it starts with `first`, every state
      but the last is short of the lower tangent and steps to the next, and
      the last is at the lower tangent. */
  ghost predicate Run(trace: seq<Walk>, first: Walk, L: Part, R: Part, h: ConvexHull.MergedHull)
  {
    |trace| >= 1 && trace[0] == first &&
    (forall i :: 0 <= i < |trace| - 1 ==> !AtEnd(trace[i], h) && CanStep(trace[i], L, R) && trace[i + 1] == Next(trace[i], L, R)) &&
    AtEnd(trace[|trace| - 1], h)
  }

  /** `trace` is a run of the walk so far: it starts with `first`, every
      state but the last is short of the lower tangent and steps to the
      next, and the last keeps the walk invariant with one new edge per
      state. */
  ghost predicate Walked(trace: seq<Walk>, first: Walk, L: Part, R: Part, h: ConvexHull.MergedHull)
  {
    |trace| >= 1 && trace[0] == first && Steps(trace, L, R, h) &&
    Grown(trace[|trace| - 1], first, |trace|) && Tracked(trace[|trace| - 1], L, R)
  }

  /** Every state of `trace` but the last is short of the lower tangent
      and steps to the next. */
  ghost predicate Steps(trace: seq<Walk>, L: Part, R: Part, h: ConvexHull.MergedHull)
  {
    forall i :: 0 <= i < |trace| - 1 ==> !AtEnd(trace[i], h) && CanStep(trace[i], L, R) && trace[i + 1] == Next(trace[i], L, R)
  }

  /** `w` holds `n` new edges, the first of them `first`'s. */
  predicate Grown(w: Walk, first: Walk, n: nat)
  {
    |w.newEdges| == n && n >= 1 && |first.newEdges| >= 1 && w.newEdges[0] == first.newEdges[0]
  }

  lemma WalkedStart(first: Walk, L: Part, R: Part, h: ConvexHull.MergedHull)
    requires Tracked(first, L, R) && |first.newEdges| == 1
    ensures Walked([first], first, L, R, h)
  {
  }

  /** One more step keeps the run. */
  lemma WalkedStep(trace: seq<Walk>, first: Walk, L: Part, R: Part, h: ConvexHull.MergedHull)
    requires Walked(trace, first, L, R, h)
    requires !AtEnd(trace[|trace| - 1], h) && CanStep(trace[|trace| - 1], L, R)
    ensures Walked(trace + [Next(trace[|trace| - 1], L, R)], first, L, R, h)
  {
    var w := trace[|trace| - 1];
    StepShape(w, L, R);
    NextTracked(w, L, R);
    var t := trace + [Next(w, L, R)];
    forall i | 0 <= i < |t| - 1
      ensures !AtEnd(t[i], h) && CanStep(t[i], L, R) && t[i + 1] == Next(t[i], L, R)
    {
      if i < |trace| - 1 {
        assert t[i] == trace[i] && t[i + 1] == trace[i + 1];
      }
    }
    assert Steps(t, L, R, h);
  }

  /** A run so far whose last state is at the lower tangent is a run. */
  lemma WalkedRun(trace: seq<Walk>, first: Walk, L: Part, R: Part, h: ConvexHull.MergedHull)
    requires Walked(trace, first, L, R, h) && AtEnd(trace[|trace| - 1], h)
    ensures Run(trace, first, L, R, h)
  {
  }

  /** Lines 188-299: the walk from `first` until both fronts are at the
      lower tangent. The source loop has no bound; `fuel` bounds it here. */
  method RunWalk(first: Walk, L: Part, R: Part, h: ConvexHull.MergedHull, fuel: nat)
    returns (r: Result<Walk>, ghost trace: seq<Walk>)
    requires Tracked(first, L, R) && |first.newEdges| == 1
    ensures r.Ok? ==> Run(trace, first, L, R, h) && r.value == trace[|trace| - 1]
    ensures r.Ok? ==> |r.value.newEdges| == |trace| && r.value.newEdges[0] == first.newEdges[0] && Tracked(r.value, L, R)
  {
    var w := first;
    trace := [w];
    WalkedStart(first, L, R, h);
    var steps := fuel;
    while !(w.left.site.id == h.leftLower.id && w.right.site.id == h.rightLower.id)
      invariant Walked(trace, first, L, R, h) && w == trace[|trace| - 1]
      decreases steps
    {
      if steps == 0 {
        return Err("walk limit reached"), trace;
      }
      steps := steps - 1;
      var next := WalkStep(w, L, R);
      if next.Err? {
        return Err(next.message), trace;
      }
      WalkedStep(trace, first, L, R, h);
      trace := trace + [next.value];
      w := next.value;
    }
    WalkedRun(trace, first, L, R, h);
    r := Ok(w);
  }

  /** The closing of the walk at `w`: the chain is the walk's new edges
      followed by the outgoing ray, which starts at the current point and
      runs from the midpoint of the two tangent sites out to the clipping
      square; the kept lists are the two edge lists without their flagged
      edges, one edge fewer per flag. */
  ghost predicate Closed(w: Walk, L: Part, R: Part, leftKept: seq<VEdge>, chain: seq<VEdge>, rightKept: seq<VEdge>)
  {
    |chain| == |w.newEdges| + 1 && chain[..|w.newEdges|] == w.newEdges &&
    chain[|w.newEdges|] == Segment(w.point, chain[|w.newEdges|].end, w.left.site.id, w.right.site.id) &&
    RayEnds(Midpoint(Point(w.left.site), Point(w.right.site)), Point(w.left.site), Point(w.right.site), chain[|w.newEdges|].end) &&
    |leftKept| == |L.edges| - |w.left.remove| && multiset(leftKept) == multiset(Unflagged(w.left.edges, w.left.remove)) &&
    |rightKept| == |R.edges| - |w.right.remove| && multiset(rightKept) == multiset(Unflagged(w.right.edges, w.right.remove))
  }

  /** The opening of the walk: the incoming ray from the upper tangent
      gives the first state, and `trace` runs from it to the lower
      tangent. */
  ghost predicate Opened(trace: seq<Walk>, L: Part, R: Part, h: ConvexHull.MergedHull, num: Numerics)
  {
    CanStart(L, R, h.leftUpper, h.rightUpper, num) && |trace| >= 1 && |trace[0].newEdges| == 1 &&
    RayEnds(trace[0].point, Point(h.rightUpper), Point(h.leftUpper), trace[0].newEdges[0].end) &&
    trace[0] == Begun(L, R, h.leftUpper, h.rightUpper, num, trace[0].newEdges[0].end) &&
    Run(trace, trace[0], L, R, h)
  }

  /** Lines 303-340: the outgoing ray from the current point towards the
      clipping square closes the chain; the flagged edges are removed from
      both lists, which never throws since every flag names an edge; and
      the kept left edges, the chain and the kept right edges are joined
      with their regions. */
  method Close(w: Walk, L: Part, R: Part)
    returns (edges: seq<VEdge>, regions: MultiMap, ghost leftKept: seq<VEdge>, ghost chain: seq<VEdge>, ghost rightKept: seq<VEdge>)
    requires Tracked(w, L, R)
    ensures Closed(w, L, R, leftKept, chain, rightKept)
    ensures edges == leftKept + chain + rightKept && regions == RegionsOf(edges)
  {
    var endPoint := BuildRayEnd(Midpoint(Point(w.left.site), Point(w.right.site)), Point(w.left.site), Point(w.right.site));
    var newEdges := w.newEdges + [Segment(w.point, endPoint, w.left.site.id, w.right.site.id)];
    var lk := RemoveFlagged(w.left.edges, w.left.remove);
    var rk := RemoveFlagged(w.right.edges, w.right.remove);
    // every flagged index names an edge, so neither removal throws
    assert lk.Ok? && rk.Ok?;
    edges, regions := Assemble(lk.value, newEdges, rk.value);
    leftKept, chain, rightKept := lk.value, newEdges, rk.value;
  }

  /** Lines 123-299: the incoming ray from the upper tangent starts the
      walk, which then steps until both fronts are at the lower tangent. */
  method WalkHull(L: Part, R: Part, h: ConvexHull.MergedHull, num: Numerics, fuel: nat)
    returns (r: Result<Walk>, ghost trace: seq<Walk>)
    ensures r.Ok? ==> Opened(trace, L, R, h, num) && r.value == trace[|trace| - 1]
    ensures r.Ok? ==> |r.value.newEdges| == |trace| && Tracked(r.value, L, R)
  {
    trace := [];
    var start := Start(L, R, h.leftUpper, h.rightUpper, num);
    if start.Err? {
      return Err(start.message), trace;
    }
    BegunTracked(L, R, h.leftUpper, h.rightUpper, num, start.value.newEdges[0].end);
    r, trace := RunWalk(start.value, L, R, h, fuel);
  }

  /** Lines 85-356: the merge of two neighbouring diagrams. The sites are
      joined and indexed and the hulls merged; the incoming ray starts the
      walk at the upper tangent, the walk steps until both fronts are at
      the lower tangent, and the outgoing ray closes the chain, which so
      has one edge per step plus two. Edges is the kept left edges, the
      chain and the kept right edges, with Regions rebuilt over them. */
  method Execute(L: Part, R: Part, num: Numerics, fuel: nat)
    returns (r: Result<Part>, ghost h: ConvexHull.MergedHull, ghost trace: seq<Walk>,
             ghost leftKept: seq<VEdge>, ghost chain: seq<VEdge>, ghost rightKept: seq<VEdge>)
    ensures |L.hull| == 0 || |R.hull| == 0 ==> r.Err?
    ensures r.Ok? ==> r.value.sites == L.sites + R.sites && IdIndexed(r.value.sites, r.value.idIndexes)
    ensures r.Ok? ==> (exists m :: ConvexHull.TangentSites(L.hull, R.hull, m, h)) && r.value.hull == h.hull
    ensures r.Ok? ==> Opened(trace, L, R, h, num)
    ensures r.Ok? ==>
      |trace| >= 1 && |trace[|trace| - 1].newEdges| == |trace| && Closed(trace[|trace| - 1], L, R, leftKept, chain, rightKept)
    ensures r.Ok? ==> r.value.edges == leftKept + chain + rightKept && r.value.regions == RegionsOf(r.value.edges)
  {
    var nobody := VSite(0, 0.0, 0.0);
    h, trace, leftKept, chain, rightKept := ConvexHull.MergedHull([], nobody, nobody, nobody, nobody), [], [], [], [];
    var sites, idIndexes := MergeSites(L.sites, R.sites);
    var merged := ConvexHull.Merge(L.hull, R.hull, fuel);
    if merged.Err? {
      return Err(merged.message), h, trace, leftKept, chain, rightKept;
    }
    var hull := merged.value;
    h := hull;
    var walked;
    walked, trace := WalkHull(L, R, hull, num, fuel);
    if walked.Err? {
      return Err(walked.message), h, trace, leftKept, chain, rightKept;
    }
    var edges, regions;
    edges, regions, leftKept, chain, rightKept := Close(walked.value, L, R);
    r := Ok(Part(sites, edges, regions, idIndexes, hull.hull));
  }
}
