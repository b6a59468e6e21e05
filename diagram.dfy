/** Diagram (Assets/Voronoi/Diagram.cs): the sites are numbered, sorted by
    X and cut into a power-of-two number of chunks; each chunk runs the
    sweep, neighbouring results are merged pairwise round by round until
    one is left, and its edges and regions are copied out. The jobs run
    one after another here. */
module VoronoiDiagram {
  import opened Wrappers
  import opened VGeometry
  import opened Edges
  import opened Sites
  import opened Collections
  import opened BeachGeometry
  import FortuneSweep
  import VoronoiMerge

  /** Line 19. */
  const MaxSitesPerJob := 1024

  const IntMax := 0x7fff_ffff
  const IntMin := -0x8000_0000

  // ------------------------------------------------------------ job count

  predicate IsPow2(p: int)
    decreases if p < 0 then 0 else p
  {
    p == 1 || (p > 1 && p % 2 == 0 && IsPow2(p / 2))
  }

  /** The least power of two, from p on doubling, that reaches x. */
  function Pow2From(x: int, p: int): (r: int)
    requires x >= 1 && IsPow2(p) && (p == 1 || p / 2 < x)
    ensures IsPow2(r) && x <= r && (r == 1 || r / 2 < x)
    decreases x - p
  {
    if p >= x then p else Pow2From(x, 2 * p)
  }

  /** math.ceilpow2 on a 32-bit int: x - 1 with every bit below its top
      bit set, plus one. Zero stays zero, and above 2^30 the sum wraps to
      int.MinValue. */
  function CeilPow2(x: int): (r: int)
    requires 0 <= x <= IntMax
    ensures x == 0 ==> r == 0
    ensures 0 < x <= 0x4000_0000 ==> IsPow2(r) && x <= r && (r == 1 || r / 2 < x)
    ensures x > 0x4000_0000 ==> r == IntMin
  {
    if x == 0 then 0 else if x > 0x4000_0000 then IntMin else Pow2From(x, 1)
  }

  /** math.ceil((float) a / b), over the exact quotient. */
  function CeilDiv(a: int, b: int): (r: int)
    requires a >= 0 && b > 0
    ensures r >= 0 && (r - 1) * b < a <= r * b
  {
    var q := (a + b - 1) / b;
    assert q * b + (a + b - 1) % b == a + b - 1;
    q
  }

  /** Lines 149-152: the job count is the least power of two whose jobs of
      maxSitesPerJob sites hold every site; no sites give no jobs. */
  function CalcJobsCount(sitesCount: int, maxSitesPerJob: int): (r: int)
    requires 0 <= sitesCount <= IntMax && maxSitesPerJob > 0
    ensures sitesCount == 0 ==> r == 0
    ensures 0 < sitesCount && CeilDiv(sitesCount, maxSitesPerJob) <= 0x4000_0000 ==>
      IsPow2(r) && sitesCount <= r * maxSitesPerJob && (r == 1 || (r / 2) * maxSitesPerJob < sitesCount)
  {
    var x := CeilDiv(sitesCount, maxSitesPerJob);
    CeilDivAtMost(sitesCount, maxSitesPerJob);
    var r := CeilPow2(x);
    JobsCover(sitesCount, maxSitesPerJob, x, r);
    r
  }

  lemma JobsCover(n: int, m: int, x: int, r: int)
    requires n >= 0 && m > 0 && x == CeilDiv(n, m) && x <= IntMax && r == CeilPow2(x)
    ensures 0 < n && x <= 0x4000_0000 ==> n <= r * m && (r == 1 || (r / 2) * m < n)
  {
    if 0 < n && x <= 0x4000_0000 {
      MulMono(x, r, m);
      if r != 1 {
        MulMono(r / 2, x - 1, m);
      }
    }
  }

  lemma CeilDivAtMost(a: int, b: int)
    requires a >= 0 && b > 0
    ensures CeilDiv(a, b) <= a
  {
    var r := CeilDiv(a, b);
    if r >= 1 {
      MulMono(1, b, r - 1);
    }
  }

  lemma MulMono(a: int, b: int, c: int)
    requires a <= b && c >= 0
    ensures a * c <= b * c
  {
    assert b * c - a * c == (b - a) * c;
  }

  /** With at least two sites per job there are never more jobs than
      sites. */
  lemma JobsAtMostSites(n: int, maxSitesPerJob: int)
    requires 1 <= n <= IntMax && maxSitesPerJob >= 2
    ensures 1 <= CalcJobsCount(n, maxSitesPerJob) <= n
  {
    var x := CeilDiv(n, maxSitesPerJob);
    assert x >= 1;
    MulMono(2, maxSitesPerJob, x - 1);
    assert 2 * (x - 1) < n;
    assert x <= 0x4000_0000;
    var r := CalcJobsCount(n, maxSitesPerJob);
    assert IsPow2(r) && (r == 1 || r / 2 < x);
    if r != 1 {
      assert r % 2 == 0;
      assert r == 2 * (r / 2) <= 2 * (x - 1);
    }
  }

  // ------------------------------------------------------------ sites

  /** FortuneSiteComparer of this file (lines 181-185): by X only. */
  function CompareX(a: VSite, b: VSite): (r: int)
    ensures r == -1 || r == 0 || r == 1
    ensures r < 0 <==> a.x < b.x
    ensures r > 0 <==> a.x > b.x
  {
    if a.x < b.x then -1 else if a.x > b.x then 1 else 0
  }

  predicate SortedX(s: seq<VSite>)
  {
    forall i, j :: 0 <= i < j < |s| ==> CompareX(s[i], s[j]) <= 0
  }

  /** v put before the first site of a sorted list it does not follow. */
  function InsertByX(v: VSite, s: seq<VSite>): (r: seq<VSite>)
    requires SortedX(s)
    ensures SortedX(r) && multiset(r) == multiset(s) + multiset{v}
  {
    if s == [] || CompareX(v, s[0]) <= 0 then
      LeadX(v, s);
      [v] + s
    else
      var t := InsertByX(v, s[1..]);
      assert s == [s[0]] + s[1..];
      FollowX(v, s, t);
      LeadX(s[0], t);
      [s[0]] + t
  }

  /** A site at or left of every site of a sorted list leads it sorted. */
  lemma LeadX(h: VSite, t: seq<VSite>)
    requires SortedX(t) && forall j :: 0 <= j < |t| ==> h.x <= t[j].x
    ensures SortedX([h] + t)
  {
    var u := [h] + t;
    forall i, j | 0 <= i < j < |u|
      ensures CompareX(u[i], u[j]) <= 0
    {
      assert u[j] == t[j - 1];
      if i > 0 {
        assert u[i] == t[i - 1];
      }
    }
  }

  /** The sites of the insert into the tail all lie at or right of the
      head. */
  lemma FollowX(v: VSite, s: seq<VSite>, t: seq<VSite>)
    requires SortedX(s) && |s| > 0 && v.x > s[0].x
    requires multiset(t) == multiset(s[1..]) + multiset{v}
    ensures forall j :: 0 <= j < |t| ==> s[0].x <= t[j].x
  {
    forall j | 0 <= j < |t|
      ensures s[0].x <= t[j].x
    {
      assert t[j] in multiset(t);
      if t[j] != v {
        assert t[j] in s[1..];
        var k :| 0 <= k < |s[1..]| && s[1..][k] == t[j];
        assert s[k + 1] == t[j];
      }
    }
  }

  /** NativeArray.Sort with the comparer above: the sites ordered by X, the
      same sites. */
  function SortByX(s: seq<VSite>): (r: seq<VSite>)
    ensures SortedX(r) && multiset(r) == multiset(s)
  {
    if s == [] then []
    else
      assert s == [s[0]] + s[1..];
      InsertByX(s[0], SortByX(s[1..]))
  }

  /** The sites built at line 125: site i has id i and point i. */
  function Numbered(points: seq<Vec2>): (r: seq<VSite>)
    ensures |r| == |points| && forall i :: 0 <= i < |r| ==> r[i].id == i && Point(r[i]) == points[i]
  {
    seq(|points|, i requires 0 <= i < |points| => NewSite(i, points[i]))
  }

  /** Lines 124-125. */
  method NumberSites(points: seq<Vec2>) returns (vSites: seq<VSite>)
    ensures vSites == Numbered(points)
  {
    vSites := [];
    var i := 0;
    while i < |points|
      invariant 0 <= i <= |points| && vSites == Numbered(points)[..i]
    {
      vSites := vSites + [NewSite(i, points[i])];
      i := i + 1;
    }
  }

  // ------------------------------------------------------------ chunks

  /** Line 128. */
  function SitesPerJob(n: int, jobs: int): (r: int)
    requires n >= 0 && jobs > 0
    ensures r >= 0 && (r - 1) * jobs < n <= r * jobs
  {
    CeilDiv(n, jobs)
  }

  /** Line 135, as written. */
  function ChunkStart(n: int, jobs: int, i: int): (r: int)
    requires n >= 0 && jobs > 0
    ensures 0 <= i ==> 0 <= r && i * n <= r * jobs
  {
    var spj := SitesPerJob(n, jobs);
    if i < 0 then i * spj
    else
      MulMono(n, spj * jobs, i);
      assert (i * spj) * jobs == (spj * jobs) * i;
      MulMono(0, i, spj);
      i * spj
  }

  /** Line 136, as written: it is negative for a chunk that starts past
      the last site. */
  function ChunkLength(n: int, jobs: int, i: int): (r: int)
    requires n >= 0 && jobs > 0
    ensures r <= SitesPerJob(n, jobs)
    ensures r == SitesPerJob(n, jobs) || ChunkStart(n, jobs, i) + r == n
    ensures r < 0 <==> ChunkStart(n, jobs, i) > n
  {
    var spj := SitesPerJob(n, jobs);
    var rest := n - ChunkStart(n, jobs, i);
    if spj < rest then spj else rest
  }

  /** As written, the chunks follow each other and end at the last site
      exactly when the last chunk does not start past it; then no length is
      negative. */
  lemma PartitionAsWritten(n: int, jobs: int, i: int)
    requires n >= 0 && jobs >= 1 && 0 <= i < jobs
    requires ChunkStart(n, jobs, jobs - 1) <= n
    ensures ChunkStart(n, jobs, 0) == 0 && ChunkLength(n, jobs, i) >= 0
    ensures i < jobs - 1 ==> ChunkStart(n, jobs, i + 1) == ChunkStart(n, jobs, i) + ChunkLength(n, jobs, i)
    ensures i == jobs - 1 ==> ChunkStart(n, jobs, i) + ChunkLength(n, jobs, i) == n
  {
    var spj := SitesPerJob(n, jobs);
    if i < jobs - 1 {
      MulMono(i + 1, jobs - 1, spj);
    } else {
      assert n <= jobs * spj;
    }
    MulMono(i, jobs - 1, spj);
  }

  /** With the default 1024 sites per job, 613700 sites give 1024 jobs of
      600 sites, and the last chunk starts at 613800: its length is -100. */
  lemma NegativeChunkAsWritten()
    ensures CalcJobsCount(613700, MaxSitesPerJob) == 1024
    ensures SitesPerJob(613700, 1024) == 600 && ChunkLength(613700, 1024, 1023) == -100
  {
    assert CeilDiv(613700, MaxSitesPerJob) == 600;
    assert Pow2From(600, 512) == 1024;
    assert Pow2From(600, 1) == 1024 by {
      assert Pow2From(600, 1) == Pow2From(600, 2) == Pow2From(600, 4) == Pow2From(600, 8) == Pow2From(600, 16);
      assert Pow2From(600, 16) == Pow2From(600, 32) == Pow2From(600, 64) == Pow2From(600, 128) == Pow2From(600, 256);
      assert Pow2From(600, 256) == Pow2From(600, 512);
    }
  }

  /** The chunk boundaries the build uses: chunk i starts at i * n / jobs,
      so chunk lengths differ by at most one. */
  function BalancedStart(n: int, jobs: int, i: int): (r: int)
    requires n >= 0 && jobs > 0 && 0 <= i
    ensures 0 <= r && r * jobs <= i * n < (r + 1) * jobs
  {
    MulMono(0, i, n);
    var r := i * n / jobs;
    assert i * n == r * jobs + i * n % jobs;
    r
  }

  /** The quotient is the only k with x = k * d + r, 0 <= r < d. */
  lemma DivUnique(x: int, d: int, k: int, r: int)
    requires d > 0 && 0 <= r < d && x == k * d + r
    ensures x / d == k
  {
    var q, m := x / d, x % d;
    assert x == q * d + m;
    assert (q - k) * d == r - m;
    if q - k >= 1 {
      MulMono(1, q - k, d);
    } else if q - k <= -1 {
      MulMono(q - k, -1, d);
    }
  }

  lemma DivMono(a: int, b: int, d: int)
    requires 0 <= a <= b && d > 0
    ensures a / d <= b / d
  {
    var qa, qb := a / d, b / d;
    assert a == qa * d + a % d && b == qb * d + b % d;
    if qa > qb {
      MulMono(qb + 1, qa, d);
    }
  }

  lemma DivStep(a: int, d: int)
    requires a >= 0 && d > 0
    ensures (a + d) / d == a / d + 1
  {
    var q := a / d;
    assert a == q * d + a % d;
    assert (q + 1) * d == q * d + d;
    DivUnique(a + d, d, q + 1, a % d);
  }

  /** Every balanced start lies within the sites. */
  lemma StartWithin(n: int, jobs: int, i: int)
    requires n >= 0 && jobs >= 1 && 0 <= i <= jobs
    ensures 0 <= BalancedStart(n, jobs, i) <= n
  {
    MulMono(0, i, n);
    MulMono(i, jobs, n);
    DivMono(i * n, jobs * n, jobs);
    DivUnique(jobs * n, jobs, n, 0);
  }

  /** The first chunk starts at 0 and the last ends at n. */
  lemma StartEnds(n: int, jobs: int)
    requires n >= 0 && jobs >= 1
    ensures BalancedStart(n, jobs, 0) == 0 && BalancedStart(n, jobs, jobs) == n
  {
    DivUnique(jobs * n, jobs, n, 0);
  }

  /** Balanced starts never decrease. */
  lemma StartStep(n: int, jobs: int, i: int)
    requires n >= 0 && jobs >= 1 && 0 <= i < jobs
    ensures BalancedStart(n, jobs, i) <= BalancedStart(n, jobs, i + 1)
  {
    MulMono(0, i, n);
    MulMono(i, i + 1, n);
    DivMono(i * n, (i + 1) * n, jobs);
  }

  /** Balanced chunks lie in order inside the sites, the first starting at
      0 and the last ending at n. */
  lemma BalancedBounds(n: int, jobs: int, i: int)
    requires n >= 0 && jobs >= 1 && 0 <= i < jobs
    ensures BalancedStart(n, jobs, 0) == 0 && BalancedStart(n, jobs, jobs) == n
    ensures 0 <= BalancedStart(n, jobs, i) <= BalancedStart(n, jobs, i + 1) <= n
  {
    StartEnds(n, jobs);
    StartWithin(n, jobs, i);
    StartWithin(n, jobs, i + 1);
    StartStep(n, jobs, i);
  }

  /** With no more jobs than sites every balanced chunk has a site. */
  lemma BalancedPartition(n: int, jobs: int, i: int)
    requires 1 <= jobs <= n && 0 <= i < jobs
    ensures BalancedStart(n, jobs, i) < BalancedStart(n, jobs, i + 1) <= n
  {
    BalancedBounds(n, jobs, i);
    assert (i + 1) * n == i * n + n;
    DivMono(i * n + jobs, i * n + n, jobs);
    DivStep(i * n, jobs);
  }

  /** The sites of chunk i. */
  function ChunkSites(sorted: seq<VSite>, jobs: int, i: int): (r: seq<VSite>)
    requires jobs >= 1 && 0 <= i < jobs
    ensures jobs <= |sorted| ==> |r| >= 1
    ensures forall s :: s in r ==> s in sorted
  {
    StartWithin(|sorted|, jobs, i + 1);
    StartStep(|sorted|, jobs, i);
    var lo, hi := BalancedStart(|sorted|, jobs, i), BalancedStart(|sorted|, jobs, i + 1);
    assert jobs <= |sorted| ==> lo < hi by {
      if jobs <= |sorted| {
        BalancedPartition(|sorted|, jobs, i);
      }
    }
    sorted[lo..hi]
  }

  /** The sites before chunk k. */
  function ChunksBefore(sorted: seq<VSite>, jobs: int, k: int): seq<VSite>
    requires jobs >= 1 && 0 <= k <= jobs
  {
    StartWithin(|sorted|, jobs, k);
    sorted[..BalancedStart(|sorted|, jobs, k)]
  }

  /** The sites of a list of results, one after another. */
  function Joined(parts: seq<VoronoiMerge.Part>): seq<VSite>
  {
    if parts == [] then [] else Joined(parts[..|parts| - 1]) + parts[|parts| - 1].sites
  }

  /** A result whose regions list its edges and whose ids are indexed. */
  ghost predicate Assembled(p: VoronoiMerge.Part)
  {
    FortuneSweep.IdIndexed(p.sites, p.idIndexes) && p.regions == FortuneSweep.RegionsOf(p.edges)
  }

  /** The chunks, one after another, are the sorted sites. */
  lemma {:induction false} SlicesJoin(parts: seq<VoronoiMerge.Part>, sorted: seq<VSite>, jobs: int, k: int)
    requires jobs >= 1 && |parts| == jobs && 0 <= k <= jobs
    requires forall i :: 0 <= i < jobs ==> parts[i].sites == ChunkSites(sorted, jobs, i)
    ensures Joined(parts[..k]) == ChunksBefore(sorted, jobs, k)
  {
    if k > 0 {
      SlicesJoin(parts, sorted, jobs, k - 1);
      StartWithin(|sorted|, jobs, k - 1);
      StartWithin(|sorted|, jobs, k);
      StartStep(|sorted|, jobs, k - 1);
      JoinStep(parts, k, sorted, BalancedStart(|sorted|, jobs, k - 1), BalancedStart(|sorted|, jobs, k));
    }
  }

  /** One more part extends the joined prefix by its own sites. */
  lemma JoinStep(parts: seq<VoronoiMerge.Part>, k: int, sorted: seq<VSite>, a: int, b: int)
    requires 1 <= k <= |parts| && 0 <= a <= b <= |sorted|
    requires Joined(parts[..k - 1]) == sorted[..a] && parts[k - 1].sites == sorted[a..b]
    ensures Joined(parts[..k]) == sorted[..b]
  {
    assert parts[..k][..k - 1] == parts[..k - 1];
    assert sorted[..a] + sorted[a..b] == sorted[..b];
  }

  /** FortunesWithConvexHull.CreateJob and Execute on the sites of one
      chunk (line 137). */
  method SweepChunk(slice: seq<VSite>, num: Numerics, fuel: nat) returns (r: Result<VoronoiMerge.Part>)
    ensures r.Ok? ==> r.value.sites == slice && Assembled(r.value)
  {
    var chunk;
    ghost var halfEdges, ends;
    chunk, halfEdges, ends := FortuneSweep.Execute(slice, num, fuel);
    if chunk.Err? {
      return Err(chunk.message);
    }
    var c := chunk.value;
    r := Ok(VoronoiMerge.Part(slice, c.edges, c.regions, c.idIndexes, c.hull));
  }

  /** All the chunks, one after another, are the sorted sites. */
  lemma ChunksJoin(parts: seq<VoronoiMerge.Part>, sorted: seq<VSite>, jobs: int)
    requires jobs >= 1 && |parts| == jobs
    requires forall i :: 0 <= i < jobs ==> parts[i].sites == ChunkSites(sorted, jobs, i)
    ensures Joined(parts) == sorted
  {
    SlicesJoin(parts, sorted, jobs, jobs);
    BalancedBounds(|sorted|, jobs, 0);
    assert parts[..jobs] == parts;
  }

  lemma JoinedOne(parts: seq<VoronoiMerge.Part>)
    requires |parts| == 1
    ensures Joined(parts) == parts[0].sites
  {
    assert parts[..0] == [];
  }

  /** Lines 122-147 with the chunk boundaries of BalancedStart: the sites
      are numbered and sorted by X, and chunk i runs the sweep on its
      sites. */
  method BuildChunks(points: seq<Vec2>, jobsCount: int, num: Numerics, fuel: nat)
    returns (r: Result<seq<VoronoiMerge.Part>>, ghost sorted: seq<VSite>)
    requires jobsCount >= 0
    ensures SortedX(sorted) && multiset(sorted) == multiset(Numbered(points))
    ensures r.Ok? ==>
      (|r.value| == jobsCount &&
       (forall i :: 0 <= i < jobsCount ==> r.value[i].sites == ChunkSites(sorted, jobsCount, i)) &&
       AllAssembled(r.value))
  {
    var vSites := NumberSites(points);
    var ordered := SortByX(vSites);
    sorted := ordered;
    r := SweepChunks(ordered, jobsCount, num, fuel);
  }

  /** Lines 133-139: chunk i of the sorted sites runs the sweep. */
  method SweepChunks(ordered: seq<VSite>, jobsCount: int, num: Numerics, fuel: nat)
    returns (r: Result<seq<VoronoiMerge.Part>>)
    requires jobsCount >= 0
    ensures r.Ok? ==>
      (|r.value| == jobsCount &&
       (forall i :: 0 <= i < jobsCount ==> r.value[i].sites == ChunkSites(ordered, jobsCount, i)) &&
       AllAssembled(r.value))
  {
    var parts: seq<VoronoiMerge.Part> := [];
    var i := 0;
    while i < jobsCount
      invariant 0 <= i <= jobsCount && |parts| == i
      invariant forall k :: 0 <= k < i ==> parts[k].sites == ChunkSites(ordered, jobsCount, k)
      invariant AllAssembled(parts)
    {
      var slice := ChunkSites(ordered, jobsCount, i);
      var chunk := SweepChunk(slice, num, fuel);
      if chunk.Err? {
        return Err(chunk.message);
      }
      parts := parts + [chunk.value];
      i := i + 1;
    }
    r := Ok(parts);
  }

  // ------------------------------------------------------------ rounds

  /** `next` holds one result per pair of neighbouring jobs, with the
      sites of the pair. */
  ghost predicate Paired(jobs: seq<VoronoiMerge.Part>, next: seq<VoronoiMerge.Part>)
  {
    |jobs| == 2 * |next| &&
    forall k :: 0 <= k < |next| ==> next[k].sites == jobs[2 * k].sites + jobs[2 * k + 1].sites
  }

  ghost predicate AllAssembled(parts: seq<VoronoiMerge.Part>)
  {
    forall k :: 0 <= k < |parts| ==> Assembled(parts[k])
  }

  /** Dropping the last pair keeps the pairing. */
  lemma PairedPrefix(jobs: seq<VoronoiMerge.Part>, next: seq<VoronoiMerge.Part>)
    requires Paired(jobs, next) && |next| >= 1
    ensures Paired(jobs[..2 * |next| - 2], next[..|next| - 1])
  {
    var m := |next|;
    var j0, n0 := jobs[..2 * m - 2], next[..m - 1];
    forall k | 0 <= k < |n0|
      ensures n0[k].sites == j0[2 * k].sites + j0[2 * k + 1].sites
    {
      assert n0[k] == next[k] && j0[2 * k] == jobs[2 * k] && j0[2 * k + 1] == jobs[2 * k + 1];
    }
  }

  /** A round keeps the sites in their order. */
  lemma {:induction false} PairedJoined(jobs: seq<VoronoiMerge.Part>, next: seq<VoronoiMerge.Part>)
    requires Paired(jobs, next)
    ensures Joined(next) == Joined(jobs)
  {
    if next != [] {
      var m := |next|;
      var j1, j0, n0 := jobs[..2 * m - 1], jobs[..2 * m - 2], next[..m - 1];
      assert j1[..|j1| - 1] == j0 && j1[|j1| - 1] == jobs[2 * m - 2];
      assert Joined(j1) == Joined(j0) + jobs[2 * m - 2].sites;
      assert jobs[..|jobs| - 1] == j1;
      assert Joined(jobs) == Joined(j1) + jobs[2 * m - 1].sites;
      assert next[..|next| - 1] == n0;
      assert Joined(next) == Joined(n0) + next[m - 1].sites;
      PairedPrefix(jobs, next);
      PairedJoined(j0, n0);
    }
  }

  /** VoronoiMerger.CreateJob and Execute for two neighbouring results:
      the merged result holds the left sites then the right ones. */
  method MergePair(left: VoronoiMerge.Part, right: VoronoiMerge.Part, num: Numerics, fuel: nat)
    returns (r: Result<VoronoiMerge.Part>)
    ensures r.Ok? ==> r.value.sites == left.sites + right.sites && Assembled(r.value)
  {
    ghost var h, trace, leftKept, chain, rightKept;
    r, h, trace, leftKept, chain, rightKept := VoronoiMerge.Execute(left, right, num, fuel);
  }

  /** One round of lines 40-46 or 58-64: jobs j and j + 1 merge into one;
      an odd count reads past the last job. */
  method MergeRound(jobs: seq<VoronoiMerge.Part>, num: Numerics, fuel: nat)
    returns (r: Result<seq<VoronoiMerge.Part>>)
    ensures r.Ok? ==> Paired(jobs, r.value) && AllAssembled(r.value)
    ensures |jobs| % 2 == 1 ==> r.Err?
  {
    var next: seq<VoronoiMerge.Part> := [];
    var j := 0;
    while j < |jobs|
      invariant 0 <= j <= |jobs| && j == 2 * |next|
      invariant forall k :: 0 <= k < |next| ==> next[k].sites == jobs[2 * k].sites + jobs[2 * k + 1].sites && Assembled(next[k])
    {
      if j + 1 >= |jobs| {
        return Err("index out of range");
      }
      var merged := MergePair(jobs[j], jobs[j + 1], num, fuel);
      if merged.Err? {
        return Err(merged.message);
      }
      next := next + [merged.value];
      j := j + 2;
    }
    r := Ok(next);
  }

  /** Lines 40-64 and 114-119: a first round, then rounds while more than
      one result is left; the one left holds every site in chunk order. */
  method Reduce(jobs: seq<VoronoiMerge.Part>, num: Numerics, fuel: nat) returns (r: Result<VoronoiMerge.Part>)
    ensures r.Ok? ==> Assembled(r.value) && r.value.sites == Joined(jobs)
    ensures |jobs| <= 1 ==> r.Err?
  {
    var round := MergeRound(jobs, num, fuel);
    if round.Err? {
      return Err(round.message);
    }
    var cur := round.value;
    PairedJoined(jobs, cur);
    while |cur| > 1
      invariant Joined(cur) == Joined(jobs) && AllAssembled(cur)
      decreases |cur|
    {
      var next := MergeRound(cur, num, fuel);
      if next.Err? {
        return Err(next.message);
      }
      PairedJoined(cur, next.value);
      cur := next.value;
    }
    if |cur| == 0 {
      return Err("index out of range");
    }
    assert cur[..0] == [];
    r := Ok(cur[0]);
  }

  // ------------------------------------------------------------ output

  /** The edges at the given indexes, in their order. */
  function Gather(edges: seq<VEdge>, indexes: seq<int>): (r: seq<VEdge>)
    requires forall v :: v in indexes ==> 0 <= v < |edges|
    ensures |r| == |indexes|
    ensures forall e :: e in r ==> e in edges
    ensures forall v :: v in indexes ==> edges[v] in r
  {
    var r := seq(|indexes|, j requires 0 <= j < |indexes| => assert indexes[j] in indexes; edges[indexes[j]]);
    assert forall j :: 0 <= j < |r| ==> r[j] in edges by {
      forall j | 0 <= j < |r| ensures r[j] in edges {
        assert indexes[j] in indexes;
      }
    }
    assert forall v :: v in indexes ==> edges[v] in r by {
      forall v | v in indexes ensures edges[v] in r {
        var j :| 0 <= j < |indexes| && indexes[j] == v;
        assert r[j] == edges[v];
      }
    }
    r
  }

  /** Every index stored under a key below n names an edge. */
  predicate Readable(edges: seq<VEdge>, regions: MultiMap, n: int)
  {
    forall i, v :: 0 <= i < n && v in ValuesFor(regions, i) ==> 0 <= v < |edges|
  }

  /** The region lists built from a region map over the edges list exactly
      the edges with the site on one side. */
  lemma RegionLists(edges: seq<VEdge>, i: int, e: VEdge)
    ensures forall v :: v in ValuesFor(FortuneSweep.RegionsOf(edges), i) ==> 0 <= v < |edges|
    ensures e in Gather(edges, ValuesFor(FortuneSweep.RegionsOf(edges), i)) <==> e in edges && (e.left == i || e.right == i)
  {
    var vs := ValuesFor(FortuneSweep.RegionsOf(edges), i);
    forall v | v in vs
      ensures 0 <= v < |edges|
    {
      FortuneSweep.RegionsIndexEdges(edges, i, v);
    }
    var g := Gather(edges, vs);
    if e in g {
      var j :| 0 <= j < |g| && g[j] == e;
      FortuneSweep.RegionsIndexEdges(edges, i, vs[j]);
    }
    if e in edges && (e.left == i || e.right == i) {
      var k :| 0 <= k < |edges| && edges[k] == e;
      FortuneSweep.RegionsIndexEdges(edges, i, k);
      var j :| 0 <= j < |vs| && vs[j] == k;
      assert g[j] == e;
    }
  }

  /** Regions[i] lists exactly the edges with site i on one side. */
  ghost predicate Listed(regions: seq<seq<VEdge>>, edges: seq<VEdge>, n: int)
  {
    |regions| == n &&
    forall i, e :: 0 <= i < n ==> (e in regions[i] <==> e in edges && (e.left == i || e.right == i))
  }

  /** Regions built from a region map over the edges list the edges of
      each site. */
  lemma ListedOf(regions: seq<seq<VEdge>>, edges: seq<VEdge>, m: MultiMap, n: int)
    requires m == FortuneSweep.RegionsOf(edges) && |regions| == n && Readable(edges, m, n)
    requires forall i :: 0 <= i < n ==> regions[i] == Gather(edges, ValuesFor(m, i))
    ensures Listed(regions, edges, n)
  {
    forall i, e | 0 <= i < n
      ensures e in regions[i] <==> e in edges && (e.left == i || e.right == i)
    {
      RegionLists(edges, i, e);
    }
  }

  /** What a build leaves: one chunk per job, the sorted numbered sites
      cut into the chunks, a single chunk taken as it is, and a result
      that holds the chunks' sites in order. */
  ghost predicate Built(points: seq<Vec2>, maxSitesPerJob: int, parts: seq<VoronoiMerge.Part>, result: VoronoiMerge.Part)
    requires maxSitesPerJob > 0 && |points| <= IntMax
  {
    |parts| == CalcJobsCount(|points|, maxSitesPerJob) && |parts| >= 1 &&
    SortedX(Joined(parts)) && multiset(Joined(parts)) == multiset(Numbered(points)) &&
    (|parts| == 1 ==> result == parts[0]) && result.sites == Joined(parts) && Assembled(result)
  }

  /** Lines 29-64 and 114-119 up to the copy: the job count (a negative
      capacity throws), the chunks, and for more than one chunk the
      rounds of merges. */
  method Pipeline(points: seq<Vec2>, maxSitesPerJob: int, num: Numerics, fuel: nat)
    returns (r: Result<VoronoiMerge.Part>, ghost parts: seq<VoronoiMerge.Part>)
    requires maxSitesPerJob > 0 && |points| <= IntMax
    ensures |points| == 0 ==> r.Err?
    ensures r.Ok? ==> Built(points, maxSitesPerJob, parts, r.value)
  {
    parts := [];
    var jobsCount := CalcJobsCount(|points|, maxSitesPerJob);
    if jobsCount < 0 {
      return Err("capacity must not be negative"), parts;
    }
    var chunks;
    ghost var sorted;
    chunks, sorted := BuildChunks(points, jobsCount, num, fuel);
    if chunks.Err? {
      return Err(chunks.message), parts;
    }
    var jobs := chunks.value;
    parts := jobs;
    if jobsCount >= 1 {
      ChunksJoin(jobs, sorted, jobsCount);
    }
    if |jobs| == 1 {
      JoinedOne(jobs);
      return Ok(jobs[0]), parts;
    }
    r := Reduce(jobs, num, fuel);
  }

  class Diagram {
    /** Sites, Edges and Regions. */
    var sites: seq<Vec2>
    var edges: seq<VEdge>
    var regions: seq<seq<VEdge>>

    /** Lines 22-26; the bounds handed to the chunk jobs are not kept. */
    constructor(points: seq<Vec2>)
      ensures sites == points && edges == [] && regions == []
    {
      sites := points;
      edges := [];
      regions := [];
    }

    /** Lines 166-179: Edges is the result's edges, and Regions[i] the
        edges whose indexes are stored under key i; an index past the
        edges throws. */
    method CopyOut(part: VoronoiMerge.Part) returns (o: Outcome)
      modifies this`edges, this`regions
      ensures edges == part.edges
      ensures o.Pass? <==> Readable(part.edges, part.regions, |sites|)
      ensures o.Pass? ==>
        (|regions| == |sites| &&
         forall i :: 0 <= i < |sites| ==> regions[i] == Gather(edges, ValuesFor(part.regions, i)))
    {
      edges := part.edges;
      var rs: seq<seq<VEdge>> := [];
      var i := 0;
      while i < |sites|
        invariant 0 <= i <= |sites| && |rs| == i && edges == part.edges
        invariant Readable(edges, part.regions, i)
        invariant forall k :: 0 <= k < i ==> rs[k] == Gather(edges, ValuesFor(part.regions, k))
      {
        var vs := ValuesFor(part.regions, i);
        var list: seq<VEdge> := [];
        var j := 0;
        while j < |vs|
          invariant 0 <= j <= |vs| && (forall v :: v in vs[..j] ==> 0 <= v < |edges|)
          invariant list == Gather(edges, vs[..j])
        {
          if !(0 <= vs[j] < |edges|) {
            assert vs[j] in ValuesFor(part.regions, i);
            return Fail("index out of range");
          }
          assert vs[..j + 1] == vs[..j] + [vs[j]];
          list := list + [edges[vs[j]]];
          j := j + 1;
        }
        assert vs[..j] == vs;
        rs := rs + [list];
        i := i + 1;
      }
      regions := rs;
      o := Pass;
    }

    /** Lines 27-120: the job count, the chunks, the copy of a single
        chunk or the pairwise merges, and the copy of the result. Every
        site appears once in the result, sorted by X, and Regions[i] lists
        the edges of site i. */
    method Build(maxSitesPerJob: int, num: Numerics, fuel: nat)
      returns (o: Outcome, ghost parts: seq<VoronoiMerge.Part>, ghost result: VoronoiMerge.Part)
      requires maxSitesPerJob > 0 && |sites| <= IntMax
      modifies this
      ensures sites == old(sites)
      ensures |sites| == 0 ==> o.Fail?
      ensures o.Pass? ==> Built(sites, maxSitesPerJob, parts, result)
      ensures o.Pass? ==> edges == result.edges && Listed(regions, edges, |sites|)
    {
      result := VoronoiMerge.Part([], [], [], map[], []);
      var r;
      r, parts := Pipeline(sites, maxSitesPerJob, num, fuel);
      if r.Err? {
        return Fail(r.message), parts, result;
      }
      result := r.value;
      o := CopyOut(r.value);
      if o.Pass? {
        ListedOf(regions, edges, r.value.regions, |sites|);
      }
    }
  }
}
