/** Convex hulls of site sets (Assets/Voronoi/Handlers/ConvexHull.cs):
    Andrew's monotone chain for one chunk and the merge of two hulls by
    walking to their upper and lower tangents. */
module ConvexHull {
  import opened Wrappers
  import opened VGeometry
  import opened Sites
  import Collections

  /** Cross(a, b, o): the cross product of a - o and b - o. */
  function Cross(a: VSite, b: VSite, o: VSite): (r: real)
    ensures r == VGeometry.Cross(Point(a).Minus(Point(o)), Point(b).Minus(Point(o)))
  {
    (a.x - o.x) * (b.y - o.y) - (a.y - o.y) * (b.x - o.x)
  }

  /** Crossing: the sign of (b - a) turned against (c - b). */
  function Crossing(a: Vec2, b: Vec2, c: Vec2): (r: int)
    ensures r == 1 || r == 0 || r == -1
  {
    var res := (b.y - a.y) * (c.x - b.x) - (c.y - b.y) * (b.x - a.x);
    if res > 0.0 then 1 else if res < 0.0 then -1 else 0
  }

  lemma CrossingExpansion(a: Vec2, b: Vec2, c: Vec2)
    ensures (b.y - a.y) * (c.x - b.x) - (c.y - b.y) * (b.x - a.x)
         == -VGeometry.Cross(b.Minus(a), c.Minus(a))
  {
    var ux, uy, vx, vy := b.x - a.x, b.y - a.y, c.x - a.x, c.y - a.y;
    assert c.x - b.x == vx - ux && c.y - b.y == vy - uy;
    assert uy * (vx - ux) == uy * vx - uy * ux;
    assert (vy - uy) * ux == vy * ux - uy * ux;
  }

  /** Crossing is the opposite of the orientation RaySide reports. */
  lemma CrossingIsOppositeOfRaySide(a: Vec2, b: Vec2, c: Vec2)
    ensures Crossing(a, b, c) == -RaySide(a, b, c)
  {
    CrossingExpansion(a, b, c);
  }

  /** FortuneSiteComparer.Compare: by X, then by Y. */
  function Compare(a: VSite, b: VSite): (r: int)
    ensures r == -1 || r == 0 || r == 1
    ensures r < 0 <==> a.x < b.x || (a.x == b.x && a.y < b.y)
    ensures r == 0 <==> a.x == b.x && a.y == b.y
  {
    if a.x == b.x then (if a.y < b.y then -1 else if a.y > b.y then 1 else 0)
    else if a.x < b.x then -1 else 1
  }

  /** The comparer is a total preorder. */
  lemma CompareIsTotalPreorder(a: VSite, b: VSite, c: VSite)
    ensures Compare(a, b) == -Compare(b, a)
    ensures Compare(a, b) <= 0 && Compare(b, c) <= 0 ==> Compare(a, c) <= 0
  {
  }

  predicate SortedXY(s: seq<VSite>)
  {
    forall i, j :: 0 <= i < j < |s| ==> Compare(s[i], s[j]) <= 0
  }

  /** A least element in front of a sorted sequence keeps it sorted. */
  lemma LeadSorted(y: VSite, t: seq<VSite>)
    requires SortedXY(t)
    requires forall e :: e in t ==> Compare(y, e) <= 0
    ensures SortedXY([y] + t)
  {
    var u := [y] + t;
    forall i, j | 0 <= i < j < |u|
      ensures Compare(u[i], u[j]) <= 0
    {
      if i > 0 {
        assert u[i] == t[i - 1] && u[j] == t[j - 1];
      } else {
        assert u[j] in t;
      }
    }
  }

  function InsertSorted(x: VSite, s: seq<VSite>): (r: seq<VSite>)
    requires SortedXY(s)
    ensures SortedXY(r) && multiset(r) == multiset(s) + multiset{x}
  {
    if s == [] || Compare(x, s[0]) <= 0 then
      LeadHead(x, s);
      [x] + s
    else
      var t := InsertSorted(x, s[1..]);
      assert s == [s[0]] + s[1..];
      LeadInserted(x, s, t);
      [s[0]] + t
  }

  lemma LeadHead(x: VSite, s: seq<VSite>)
    requires SortedXY(s)
    requires s == [] || Compare(x, s[0]) <= 0
    ensures SortedXY([x] + s)
  {
    forall e | e in s
      ensures Compare(x, e) <= 0
    {
      var k :| 0 <= k < |s| && s[k] == e;
      if k > 0 {
        assert Compare(s[0], s[k]) <= 0;
      }
    }
    LeadSorted(x, s);
  }

  lemma LeadInserted(x: VSite, s: seq<VSite>, t: seq<VSite>)
    requires SortedXY(s) && |s| > 0 && Compare(x, s[0]) > 0
    requires SortedXY(t) && multiset(t) == multiset(s[1..]) + multiset{x}
    ensures SortedXY([s[0]] + t)
  {
    forall e | e in t
      ensures Compare(s[0], e) <= 0
    {
      assert e in multiset(t);
      if e != x {
        assert e in s[1..];
        var k :| 0 <= k < |s[1..]| && s[1..][k] == e;
        assert s[k + 1] == e;
      }
    }
    LeadSorted(s[0], t);
  }

  /** The sort of the site copy before the chains are built: the library
      sort is replaced by this insertion sort, which orders the same way up
      to sites with equal coordinates. */
  function SortSites(s: seq<VSite>): (r: seq<VSite>)
    ensures SortedXY(r) && multiset(r) == multiset(s)
  {
    if s == [] then []
    else
      assert s == [s[0]] + s[1..];
      InsertSorted(s[0], SortSites(s[1..]))
  }

  /** Sorting keeps the length and draws every element from the input. */
  lemma SortSitesKeepsSites(s: seq<VSite>)
    ensures |SortSites(s)| == |s|
    ensures forall v :: v in SortSites(s) ==> v in s
  {
    var r := SortSites(s);
    assert |multiset(r)| == |multiset(s)|;
    forall v | v in r
      ensures v in s
    {
      assert v in multiset(r);
    }
  }

  /** Every consecutive triple of the chain turns strictly. */
  predicate StrictTurns(c: seq<VSite>)
  {
    forall j :: 0 <= j < |c| - 2 ==> Cross(c[j], c[j + 1], c[j + 2]) > 0.0
  }

  /** A chain from `first` to `last` built from sites of `pool`. */
  predicate Chain(c: seq<VSite>, first: VSite, last: VSite, pool: seq<VSite>)
  {
    |c| >= 1 && c[0] == first && c[|c| - 1] == last && StrictTurns(c) &&
    forall v :: v in c ==> v in pool
  }

  /** The chain as `p` arrives: its last site is popped for as long as the
      last two sites do not turn strictly towards `p`. What is left is a
      prefix of the chain that keeps its first site and turns towards `p`. */
  function PopTurns(c: seq<VSite>, p: VSite): (r: seq<VSite>)
    ensures |r| <= |c| && r == c[..|r|]
    ensures |c| >= 1 ==> |r| >= 1
    ensures |r| < 2 || Cross(r[|r| - 2], r[|r| - 1], p) > 0.0
    decreases |c|
  {
    if |c| >= 2 && Cross(c[|c| - 2], c[|c| - 1], p) <= 0.0 then
      var r := PopTurns(c[..|c| - 1], p);
      assert c[..|c| - 1][..|r|] == c[..|r|];
      r
    else c
  }

  /** The lower chain after the first i sorted sites. */
  function LowerScan(points: seq<VSite>, i: nat): (r: seq<VSite>)
    requires i <= |points|
    ensures |r| <= i
  {
    if i == 0 then [] else PopTurns(LowerScan(points, i - 1), points[i - 1]) + [points[i - 1]]
  }

  /** The upper chain after the sorted sites from the last one down to i. */
  function UpperScan(points: seq<VSite>, i: nat): (r: seq<VSite>)
    requires i <= |points|
    ensures |r| <= |points| - i
    decreases |points| - i
  {
    if i == |points| then [] else PopTurns(UpperScan(points, i + 1), points[i]) + [points[i]]
  }

  /** The hull of sorted sites: both chains without their last sites. */
  function AndrewsHull(points: seq<VSite>): (r: seq<VSite>)
    requires |points| >= 1
    ensures |r| <= 2 * |points| - 2
  {
    var lower, upper := LowerScan(points, |points|), UpperScan(points, 0);
    assert |lower| >= 1 && |upper| >= 1 by {
      assert lower == PopTurns(LowerScan(points, |points| - 1), points[|points| - 1]) + [points[|points| - 1]];
    }
    lower[..|lower| - 1] + upper[..|upper| - 1]
  }

  /** Pushing a site after PopTurns keeps every triple turning strictly. */
  lemma PushKeepsTurns(c: seq<VSite>, p: VSite)
    requires StrictTurns(c)
    ensures StrictTurns(PopTurns(c, p) + [p])
  {
    var r := PopTurns(c, p);
    PrefixKeepsTurns(c, |r|);
    AppendTurn(r, p);
  }

  /** A prefix of a chain turns wherever the chain does. */
  lemma PrefixKeepsTurns(c: seq<VSite>, k: nat)
    requires k <= |c| && StrictTurns(c)
    ensures StrictTurns(c[..k])
  {
  }

  /** A site the chain's last two sites turn towards extends the chain. */
  lemma AppendTurn(r: seq<VSite>, p: VSite)
    requires StrictTurns(r)
    requires |r| < 2 || Cross(r[|r| - 2], r[|r| - 1], p) > 0.0
    ensures StrictTurns(r + [p])
  {
    var t := r + [p];
    forall j | 0 <= j < |t| - 2
      ensures Cross(t[j], t[j + 1], t[j + 2]) > 0.0
    {
      if j + 2 < |r| {
        assert t[j] == r[j] && t[j + 1] == r[j + 1] && t[j + 2] == r[j + 2];
      }
    }
  }

  /** The lower chain runs from the first sorted site to the i-th, turns
      strictly at every site, and holds only sorted sites. */
  lemma {:induction false} LowerScanIsChain(points: seq<VSite>, i: nat)
    requires 1 <= i <= |points|
    ensures Chain(LowerScan(points, i), points[0], points[i - 1], points)
  {
    var r := LowerScan(points, i);
    if i == 1 {
      assert r == [points[0]];
    } else {
      var c := LowerScan(points, i - 1);
      LowerScanIsChain(points, i - 1);
      PushKeepsTurns(c, points[i - 1]);
      var q := PopTurns(c, points[i - 1]);
      assert q[0] == c[0];
      forall v | v in r
        ensures v in points
      {
        if v != points[i - 1] {
          assert v in q;
          assert v in c;
        }
      }
    }
  }

  /** The upper chain runs from the last sorted site down to the i-th. */
  lemma {:induction false} UpperScanIsChain(points: seq<VSite>, i: nat)
    requires i < |points|
    ensures Chain(UpperScan(points, i), points[|points| - 1], points[i], points)
    decreases |points| - i
  {
    var r := UpperScan(points, i);
    if i == |points| - 1 {
      assert r == [points[i]];
    } else {
      var c := UpperScan(points, i + 1);
      UpperScanIsChain(points, i + 1);
      PushKeepsTurns(c, points[i]);
      var q := PopTurns(c, points[i]);
      assert q[0] == c[0];
      forall v | v in r
        ensures v in points
      {
        if v != points[i] {
          assert v in q;
          assert v in c;
        }
      }
    }
  }

  /** The lower chain: each sorted site in turn, after popping the last
      chain site while it does not turn strictly towards the new one. */
  method LowerChain(points: seq<VSite>) returns (lower: seq<VSite>)
    ensures lower == LowerScan(points, |points|)
  {
    lower := [];
    var i := 0;
    while i < |points|
      invariant 0 <= i <= |points|
      invariant lower == LowerScan(points, i)
    {
      ghost var before := lower;
      while |lower| >= 2 && Cross(lower[|lower| - 2], lower[|lower| - 1], points[i]) <= 0.0
        invariant PopTurns(lower, points[i]) == PopTurns(before, points[i])
        decreases |lower|
      {
        Collections.SwapBackLast(lower);
        lower := Collections.RemoveAtSwapBack(lower, |lower| - 1);
      }
      lower := lower + [points[i]];
      i := i + 1;
    }
  }

  /** The upper chain: the same over the sorted sites in reverse. */
  method UpperChain(points: seq<VSite>) returns (upper: seq<VSite>)
    ensures upper == UpperScan(points, 0)
  {
    upper := [];
    var i := |points| - 1;
    while i >= 0
      invariant -1 <= i <= |points| - 1
      invariant upper == UpperScan(points, i + 1)
    {
      ghost var before := upper;
      while |upper| >= 2 && Cross(upper[|upper| - 2], upper[|upper| - 1], points[i]) <= 0.0
        invariant PopTurns(upper, points[i]) == PopTurns(before, points[i])
        decreases |upper|
      {
        Collections.SwapBackLast(upper);
        upper := Collections.RemoveAtSwapBack(upper, |upper| - 1);
      }
      upper := upper + [points[i]];
      i := i - 1;
    }
  }

  /** BuildConvexHull / AndrewsConvexHull: the lower chain over the sorted
      sites, then the upper chain, each without its last site. An empty
      input makes the first RemoveAtSwapBack fail. */
  method AndrewsConvexHull(sites: seq<VSite>) returns (r: Result<seq<VSite>>)
    ensures r.Err? <==> |sites| == 0
    ensures r.Ok? ==> r.value == AndrewsHull(SortSites(sites))
  {
    var points := SortSites(sites);
    SortSitesKeepsSites(sites);
    var lower := LowerChain(points);
    var upper := UpperChain(points);
    if |lower| == 0 {
      return Err("index out of range");
    }
    Collections.SwapBackLast(lower);
    lower := Collections.RemoveAtSwapBack(lower, |lower| - 1);
    if |upper| == 0 {
      assert false;
      return Err("index out of range");
    }
    Collections.SwapBackLast(upper);
    upper := Collections.RemoveAtSwapBack(upper, |upper| - 1);
    r := Ok(lower + upper);
  }

  /** BuildConvexHull. */
  method BuildConvexHull(sites: seq<VSite>) returns (r: Result<seq<VSite>>)
    ensures r.Err? <==> |sites| == 0
    ensures r.Ok? ==> r.value == AndrewsHull(SortSites(sites))
  {
    r := AndrewsConvexHull(sites);
  }

  /** Both chains the hull is cut from run between the least and the
      greatest sorted site and turn strictly at every site. */
  lemma HullChains(points: seq<VSite>)
    requires |points| >= 1
    ensures Chain(LowerScan(points, |points|), points[0], points[|points| - 1], points)
    ensures Chain(UpperScan(points, 0), points[|points| - 1], points[0], points)
  {
    LowerScanIsChain(points, |points|);
    UpperScanIsChain(points, 0);
  }

  /** The hull is made of input sites. */
  lemma HullFromSites(sites: seq<VSite>)
    requires |sites| >= 1
    ensures forall v :: v in AndrewsHull(SortSites(sites)) ==> v in sites
  {
    SortSitesKeepsSites(sites);
    HullFromPoints(SortSites(sites), sites);
  }

  lemma HullFromPoints(points: seq<VSite>, sites: seq<VSite>)
    requires |points| >= 1
    requires forall v :: v in points ==> v in sites
    ensures forall v :: v in AndrewsHull(points) ==> v in sites
  {
    HullChains(points);
    var lower, upper := LowerScan(points, |points|), UpperScan(points, 0);
    assert AndrewsHull(points) == lower[..|lower| - 1] + upper[..|upper| - 1];
    HullFromPool(lower, upper, points, sites);
  }

  /** Cutting the last site off two chains drawn from the sorted sites
      leaves sites of the input. */
  lemma HullFromPool(lower: seq<VSite>, upper: seq<VSite>, points: seq<VSite>, sites: seq<VSite>)
    requires |lower| >= 1 && |upper| >= 1
    requires forall v :: v in lower ==> v in points
    requires forall v :: v in upper ==> v in points
    requires forall v :: v in points ==> v in sites
    ensures forall v :: v in lower[..|lower| - 1] + upper[..|upper| - 1] ==> v in sites
  {
    forall v | v in lower[..|lower| - 1] + upper[..|upper| - 1]
      ensures v in sites
    {
      assert v in lower[..|lower| - 1] || v in upper[..|upper| - 1];
      assert v in lower || v in upper;
    }
  }

  /** A single sorted site has an empty hull; sorted sites whose least and
      greatest differ have a hull of at least two sites that starts at the
      least one. */
  lemma HullShape(points: seq<VSite>)
    requires |points| >= 1
    ensures |points| == 1 ==> AndrewsHull(points) == []
    ensures points[0] != points[|points| - 1] ==>
      |AndrewsHull(points)| >= 2 && AndrewsHull(points)[0] == points[0]
  {
    HullChains(points);
    var lower, upper := LowerScan(points, |points|), UpperScan(points, 0);
    assert AndrewsHull(points) == lower[..|lower| - 1] + upper[..|upper| - 1];
    if |points| == 1 {
      assert |lower| == 1 && |upper| == 1;
    }
  }

  /** GetRightMostIndex: an index of greatest X, the last one on ties; an
      empty hull has no first element to read. */
  method GetRightMostIndex(hull: seq<VSite>) returns (r: Result<int>)
    ensures r.Err? <==> |hull| == 0
    ensures r.Ok? ==> 0 <= r.value < |hull|
    ensures r.Ok? ==> forall j :: 0 <= j < |hull| ==> hull[j].x <= hull[r.value].x
    ensures r.Ok? ==> forall j :: r.value < j < |hull| ==> hull[j].x < hull[r.value].x
  {
    if |hull| == 0 {
      return Err("index out of range");
    }
    var x := hull[0].x;
    var index := 0;
    for i := 1 to |hull|
      invariant 0 <= index < i && x == hull[index].x
      invariant forall j :: 0 <= j < i ==> hull[j].x <= x
      invariant forall j :: index < j < i ==> hull[j].x < x
    {
      if x > hull[i].x {
        continue;
      }
      x := hull[i].x;
      index := i;
    }
    r := Ok(index);
  }

  /** GetLeftMostIndex: an index of least X, the last one on ties. */
  method GetLeftMostIndex(hull: seq<VSite>) returns (r: Result<int>)
    ensures r.Err? <==> |hull| == 0
    ensures r.Ok? ==> 0 <= r.value < |hull|
    ensures r.Ok? ==> forall j :: 0 <= j < |hull| ==> hull[r.value].x <= hull[j].x
    ensures r.Ok? ==> forall j :: r.value < j < |hull| ==> hull[r.value].x < hull[j].x
  {
    if |hull| == 0 {
      return Err("index out of range");
    }
    var x := hull[0].x;
    var index := 0;
    for i := 1 to |hull|
      invariant 0 <= index < i && x == hull[index].x
      invariant forall j :: 0 <= j < i ==> x <= hull[j].x
      invariant forall j :: index < j < i ==> x < hull[j].x
    {
      if x < hull[i].x {
        continue;
      }
      x := hull[i].x;
      index := i;
    }
    r := Ok(index);
  }

  /** The index after i, cyclically. */
  function Succ(i: int, n: int): (r: int)
    requires 0 <= i < n
    ensures 0 <= r < n && r == (i + 1) % n
  {
    if i + 1 < n then i + 1 else 0
  }

  /** The index before i, cyclically: `(n + i - 1) % n`. */
  function Pred(i: int, n: int): (r: int)
    requires 0 <= i < n
    ensures 0 <= r < n && r == (n + i - 1) % n
  {
    if i > 0 then i - 1 else n - 1
  }

  /** The number of forward steps from `from` to `to` round n slots. */
  function Steps(from: int, to: int, n: int): (r: int)
    requires 0 <= from < n && 0 <= to < n
    ensures 0 <= r < n && r == (to - from) % n
  {
    if to >= from then to - from else to - from + n
  }

  /** The sites of `s` from index `from` forward to index `to`, wrapping
      round the end. */
  function CyclicRange(s: seq<VSite>, from: int, to: int): (r: seq<VSite>)
    requires 0 <= from < |s| && 0 <= to < |s|
    ensures |r| == (to - from) % |s| + 1 && r[0] == s[from] && r[|r| - 1] == s[to]
  {
    var n := |s|;
    seq(Steps(from, to, n) + 1, k requires 0 <= k <= Steps(from, to, n) =>
      if from + k < n then s[from + k] else s[from + k - n])
  }

  /** One more step forward extends the range by the next site. */
  lemma CyclicRangeStep(s: seq<VSite>, from: int, to: int)
    requires 0 <= from < |s| && 0 <= to < |s| && Steps(from, to, |s|) < |s| - 1
    ensures Steps(from, Succ(to, |s|), |s|) == Steps(from, to, |s|) + 1
    ensures CyclicRange(s, from, Succ(to, |s|)) == CyclicRange(s, from, to) + [s[Succ(to, |s|)]]
  {
  }

  /** Neither side of the pair (ia, ib) can move further along the upper
      walk: the pair at which that walk stops. */
  predicate UpperTangent(a: seq<VSite>, b: seq<VSite>, ia: int, ib: int)
    requires 0 <= ia < |a| && 0 <= ib < |b|
  {
    Crossing(Point(b[ib]), Point(a[ia]), Point(a[Succ(ia, |a|)])) < 0 &&
    Crossing(Point(a[ia]), Point(b[ib]), Point(b[Pred(ib, |b|)])) > 0
  }

  /** The same for the lower walk. */
  predicate LowerTangent(a: seq<VSite>, b: seq<VSite>, ia: int, ib: int)
    requires 0 <= ia < |a| && 0 <= ib < |b|
  {
    Crossing(Point(a[ia]), Point(b[ib]), Point(b[Succ(ib, |b|)])) < 0 &&
    Crossing(Point(b[ib]), Point(a[ia]), Point(a[Pred(ia, |a|)])) > 0
  }

  /** MergeHandler's results: the merged hull and its out parameters. */
  datatype Merged = Merged(hull: seq<VSite>, aUpper: int, bUpper: int, aLower: int, bLower: int)

  /** The merged hull round the upper and lower tangents, as MergeHandler
      assembles it. */
  predicate MergedAt(a: seq<VSite>, b: seq<VSite>, m: Merged)
  {
    0 <= m.aUpper < |a| && 0 <= m.aLower < |a| && 0 <= m.bUpper < |b| && 0 <= m.bLower < |b| &&
    UpperTangent(a, b, m.aUpper, m.bUpper) && LowerTangent(a, b, m.aLower, m.bLower) &&
    m.hull == CyclicRange(a, m.aUpper, m.aLower) + CyclicRange(b, m.bLower, m.bUpper)
  }

  /** The two tangent walks from the rightmost site of `a` and the leftmost
      of `b`, then the hull from a[aUpper] forward to a[aLower] followed by
      b[bLower] forward to b[bUpper]. The walks rely on convex, separated
      hulls to stop; `fuel` bounds their steps. */
  method MergeHandler(a: seq<VSite>, b: seq<VSite>, fuel: nat) returns (r: Result<Merged>)
    ensures |a| == 0 || |b| == 0 ==> r.Err?
    ensures r.Ok? ==> MergedAt(a, b, r.value)
    ensures r.Ok? ==> |r.value.hull| == (r.value.aLower - r.value.aUpper) % |a| + 1 +
                                        (r.value.bUpper - r.value.bLower) % |b| + 1
  {
    var n1, n2 := |a|, |b|;
    var aStartR := GetRightMostIndex(a);
    var bStartR := GetLeftMostIndex(b);
    if aStartR.Err? || bStartR.Err? {
      return Err("index out of range");
    }
    var aStart, bStart := aStartR.value, bStartR.value;
    var steps := fuel;

    var ia, ib := aStart, bStart;
    var done := false;
    while !done
      invariant 0 <= ia < n1 && 0 <= ib < n2
      invariant done ==> UpperTangent(a, b, ia, ib)
      decreases steps, if done then 0 else 1
    {
      ghost var before := steps;
      done := true;
      while Crossing(Point(b[ib]), Point(a[ia]), Point(a[(ia + 1) % n1])) >= 0
        invariant 0 <= ia < n1 && steps <= before
        decreases steps
      {
        if steps == 0 {
          return Err("tangent walk did not stop");
        }
        steps := steps - 1;
        ia := (ia + 1) % n1;
      }
      ghost var ibBefore := ib;
      while Crossing(Point(a[ia]), Point(b[ib]), Point(b[(n2 + ib - 1) % n2])) <= 0
        invariant 0 <= ib < n2 && steps <= before
        invariant done ==> ib == ibBefore
        invariant !done ==> steps < before
        decreases steps
      {
        if steps == 0 {
          return Err("tangent walk did not stop");
        }
        steps := steps - 1;
        ib := (n2 + ib - 1) % n2;
        done := false;
      }
    }
    var aUpper, bUpper := ia, ib;

    ia, ib := aStart, bStart;
    done := false;
    while !done
      invariant 0 <= ia < n1 && 0 <= ib < n2
      invariant done ==> LowerTangent(a, b, ia, ib)
      decreases steps, if done then 0 else 1
    {
      ghost var before := steps;
      done := true;
      while Crossing(Point(a[ia]), Point(b[ib]), Point(b[(ib + 1) % n2])) >= 0
        invariant 0 <= ib < n2 && steps <= before
        decreases steps
      {
        if steps == 0 {
          return Err("tangent walk did not stop");
        }
        steps := steps - 1;
        ib := (ib + 1) % n2;
      }
      ghost var iaBefore := ia;
      while Crossing(Point(b[ib]), Point(a[ia]), Point(a[(n1 + ia - 1) % n1])) <= 0
        invariant 0 <= ia < n1 && steps <= before
        invariant done ==> ia == iaBefore
        invariant !done ==> steps < before
        decreases steps
      {
        if steps == 0 {
          return Err("tangent walk did not stop");
        }
        steps := steps - 1;
        ia := (n1 + ia - 1) % n1;
        done := false;
      }
    }
    var aLower, bLower := ia, ib;

    var ret := [a[aUpper]];
    var ind := aUpper;
    while ind != aLower
      invariant 0 <= ind < n1
      invariant Steps(aUpper, ind, n1) <= Steps(aUpper, aLower, n1)
      invariant ret == CyclicRange(a, aUpper, ind)
      decreases Steps(aUpper, aLower, n1) - Steps(aUpper, ind, n1)
    {
      CyclicRangeStep(a, aUpper, ind);
      ind := (ind + 1) % n1;
      ret := ret + [a[ind]];
    }
    var fromA := ret;

    ind := bLower;
    ret := ret + [b[bLower]];
    while ind != bUpper
      invariant 0 <= ind < n2
      invariant Steps(bLower, ind, n2) <= Steps(bLower, bUpper, n2)
      invariant ret == fromA + CyclicRange(b, bLower, ind)
      decreases Steps(bLower, bUpper, n2) - Steps(bLower, ind, n2)
    {
      CyclicRangeStep(b, bLower, ind);
      ind := (ind + 1) % n2;
      ret := ret + [b[ind]];
    }
    r := Ok(Merged(ret, aUpper, bUpper, aLower, bLower));
  }

  /** Merge's results: the merged hull and the four tangent sites. */
  datatype MergedHull = MergedHull(hull: seq<VSite>, leftUpper: VSite, rightUpper: VSite,
                                   leftLower: VSite, rightLower: VSite)

  /** `h` carries m's hull and the sites at m's tangent indexes. */
  predicate TangentSites(left: seq<VSite>, right: seq<VSite>, m: Merged, h: MergedHull)
  {
    MergedAt(left, right, m) && h.hull == m.hull &&
    h.leftUpper == left[m.aUpper] && h.rightUpper == right[m.bUpper] &&
    h.leftLower == left[m.aLower] && h.rightLower == right[m.bLower]
  }

  /** Merge: MergeHandler, then the sites at the four tangent indexes. */
  method Merge(left: seq<VSite>, right: seq<VSite>, fuel: nat) returns (r: Result<MergedHull>)
    ensures |left| == 0 || |right| == 0 ==> r.Err?
    ensures r.Ok? ==> exists m :: TangentSites(left, right, m, r.value)
  {
    var merged := MergeHandler(left, right, fuel);
    if merged.Err? {
      return Err(merged.message);
    }
    var m := merged.value;
    r := Ok(MergedHull(m.hull, left[m.aUpper], right[m.bUpper], left[m.aLower], right[m.bLower]));
    assert TangentSites(left, right, m, r.value);
  }
}
