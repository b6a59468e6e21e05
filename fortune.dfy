/** One chunk of sites through Fortune's sweep
    (Assets/Voronoi/Jobs/FortunesWithConvexHull.cs): the id maps and the
    site events are seeded, the event loop drains the queue with the lazy
    deletion of cancelled circle events, the half-edge pairs are folded
    into edges in place with their far ends built, the regions index every
    edge under both its sites, and the chunk's convex hull is built. */
module FortuneSweep {
  import opened Wrappers
  import opened VMath
  import opened VGeometry
  import opened Edges
  import opened Sites
  import opened Events
  import opened Collections
  import opened MinHeap
  import opened BeachGeometry
  import opened BeachTrack
  import opened BeachLine
  import opened ConvexHull

  // ------------------------------------------------------------ seeding

  /** SiteIdIndexes after `SiteIdIndexes[sites[i].Id] = i` for every i in
      order: it holds exactly the ids of the sites, each mapped to the
      index of the last site with that id. */
  ghost predicate IdIndexed(sites: seq<VSite>, idIndexes: map<int, int>)
  {
    (forall id :: id in idIndexes <==> exists i :: 0 <= i < |sites| && sites[i].id == id) &&
    (forall id :: id in idIndexes ==>
       0 <= idIndexes[id] < |sites| && sites[idIndexes[id]].id == id &&
       forall j :: idIndexes[id] < j < |sites| ==> sites[j].id != id)
  }

  /** SiteIndexIds holds the id of every site index, and SiteIdIndexes is
      IdIndexed. */
  ghost predicate MapsSeeded(sites: seq<VSite>, idIndexes: map<int, int>, indexIds: map<int, int>)
  {
    (forall i :: i in indexIds <==> 0 <= i < |sites|) &&
    (forall i :: 0 <= i < |sites| ==> indexIds[i] == sites[i].id) &&
    IdIndexed(sites, idIndexes)
  }

  /** One more site recorded under its id. */
  lemma IdIndexStep(sites: seq<VSite>, i: int, idIndexes: map<int, int>)
    requires 0 <= i < |sites| && IdIndexed(sites[..i], idIndexes)
    ensures IdIndexed(sites[..i + 1], idIndexes[sites[i].id := i])
  {
    var p, q := sites[..i], sites[..i + 1];
    assert q == p + [sites[i]];
    var ii := idIndexes[sites[i].id := i];
    forall id | id in ii
      ensures exists k :: 0 <= k < |q| && q[k].id == id
    {
      if id != sites[i].id {
        var k :| 0 <= k < |p| && p[k].id == id;
        assert q[k].id == id;
      } else {
        assert q[i].id == id;
      }
    }
    forall id | exists k :: 0 <= k < |q| && q[k].id == id
      ensures id in ii
    {
      var k :| 0 <= k < |q| && q[k].id == id;
      if k < i {
        assert p[k].id == id;
      }
    }
  }

  /** With distinct ids, every site's id leads back to its own index. */
  lemma IdIndexedDistinct(sites: seq<VSite>, idIndexes: map<int, int>)
    requires IdIndexed(sites, idIndexes)
    requires forall i, j :: 0 <= i < j < |sites| ==> sites[i].id != sites[j].id
    ensures forall i :: 0 <= i < |sites| ==> sites[i].id in idIndexes && idIndexes[sites[i].id] == i
  {
    forall i | 0 <= i < |sites|
      ensures sites[i].id in idIndexes && idIndexes[sites[i].id] == i
    {
      var id := sites[i].id;
      assert id in idIndexes;
      assert sites[idIndexes[id]].id == id;
    }
  }

  /** Lines 57-63, the map half: SiteIdIndexes[site.Id] = i and
      SiteIndexIds[i] = site.Id for every site in order. */
  method SeedMaps(sites: seq<VSite>) returns (idIndexes: map<int, int>, indexIds: map<int, int>)
    ensures MapsSeeded(sites, idIndexes, indexIds)
  {
    idIndexes, indexIds := map[], map[];
    var i := 0;
    while i < |sites|
      invariant 0 <= i <= |sites|
      invariant MapsSeeded(sites[..i], idIndexes, indexIds)
    {
      SeedStep(sites, i, idIndexes, indexIds);
      idIndexes := idIndexes[sites[i].id := i];
      indexIds := indexIds[i := sites[i].id];
      i := i + 1;
    }
    assert sites[..i] == sites;
  }

  lemma SeedStep(sites: seq<VSite>, i: int, idIndexes: map<int, int>, indexIds: map<int, int>)
    requires 0 <= i < |sites| && MapsSeeded(sites[..i], idIndexes, indexIds)
    ensures MapsSeeded(sites[..i + 1], idIndexes[sites[i].id := i], indexIds[i := sites[i].id])
  {
    IdIndexStep(sites, i, idIndexes);
  }

  /** When the ids are distinct, the two maps are inverse to each other
      over the chunk: an index goes to its id and back, an id to its index
      and back. */
  lemma MapsInverse(sites: seq<VSite>, idIndexes: map<int, int>, indexIds: map<int, int>)
    requires MapsSeeded(sites, idIndexes, indexIds)
    requires forall i, j :: 0 <= i < j < |sites| ==> sites[i].id != sites[j].id
    ensures forall i :: 0 <= i < |sites| ==> indexIds[i] in idIndexes && idIndexes[indexIds[i]] == i
    ensures forall id :: id in idIndexes ==> idIndexes[id] in indexIds && indexIds[idIndexes[id]] == id
  {
    IdIndexedDistinct(sites, idIndexes);
  }

  // ------------------------------------------------------------ compaction

  /** IsNotSet: the end of a half-edge that no circle event has closed. */
  function IsNotSet(v: Vec2): (r: bool)
    ensures v == Unset ==> r
    ensures v.x > FloatMin && v.y > FloatMin ==> !r
  {
    v.x <= FloatMin || v.y <= FloatMin
  }

  /** The sentinel AddEdge stores is not set, and a point with both
      coordinates above the least float is set. */
  lemma SentinelIsNotSet(v: Vec2)
    ensures IsNotSet(Unset)
    ensures IsNotSet(v) <==> !(v.x > FloatMin && v.y > FloatMin)
  {
  }

  /** Within the float range, not set means a coordinate is the least float. */
  lemma NotSetOnFloats(v: Vec2)
    requires FloatMin <= v.x <= FloatMax && FloatMin <= v.y <= FloatMax
    ensures IsNotSet(v) <==> v.x == FloatMin || v.y == FloatMin
  {
  }

  /** The input slots the compaction reads from slot i on: an edge with a
      neighbour takes two slots, one without takes one. The result is the
      slot of each edge it emits. */
  function Groups(edges: seq<VEdge>, i: nat): (g: seq<nat>)
    decreases |edges| - i
  {
    if i >= |edges| then []
    else [i] + Groups(edges, i + (if edges[i].neighbor < 0 then 1 else 2))
  }

  /** From slot i, the emitted edges are slots in increasing order, at
      most one per slot and at least one per two slots. */
  lemma {:induction false} GroupsShape(edges: seq<VEdge>, i: nat)
    requires i <= |edges|
    ensures var g := Groups(edges, i);
      |g| <= |edges| - i <= 2 * |g| &&
      (forall k :: 0 <= k < |g| ==> i <= g[k] < |edges|) &&
      (forall k, l :: 0 <= k < l < |g| ==> g[k] < g[l])
    decreases |edges| - i
  {
    if i < |edges| {
      var j := i + (if edges[i].neighbor < 0 then 1 else 2);
      if j <= |edges| {
        GroupsShape(edges, j);
      } else {
        assert Groups(edges, j) == [];
      }
    }
  }

  /** Without neighbours every slot emits its own edge. */
  lemma {:induction false} GroupsWithoutNeighbours(edges: seq<VEdge>, i: nat)
    requires i <= |edges|
    requires forall j :: i <= j < |edges| ==> edges[j].neighbor < 0
    ensures |Groups(edges, i)| == |edges| - i
    decreases |edges| - i
  {
    if i < |edges| {
      GroupsWithoutNeighbours(edges, i + 1);
    }
  }

  /** The entries of the region map after adding the edges in order: edge k
      under its Left and then under its Right. */
  function RegionsOf(out: seq<VEdge>): (r: MultiMap)
    ensures |r| == 2 * |out|
  {
    if out == [] then []
    else
      var k := |out| - 1;
      MultiAdd(MultiAdd(RegionsOf(out[..k]), out[k].left, k), out[k].right, k)
  }

  /** The region of a site lists exactly the edges that have it on one side. */
  lemma {:induction false} RegionsIndexEdges(out: seq<VEdge>, site: int, k: int)
    ensures k in ValuesFor(RegionsOf(out), site) <==>
      0 <= k < |out| && (out[k].left == site || out[k].right == site)
    decreases |out|
  {
    if out != [] {
      var n := |out| - 1;
      RegionsIndexEdges(out[..n], site, k);
      var inner := RegionsOf(out[..n]);
      assert RegionsOf(out) == [(out[n].right, n), (out[n].left, n)] + inner;
      assert (site, k) in RegionsOf(out) <==>
        (site, k) == (out[n].right, n) || (site, k) == (out[n].left, n) || (site, k) in inner;
    }
  }

  /** Both sites of an edge are ids of the chunk with an index in range. */
  predicate Keyed(e: VEdge, sites: seq<VSite>, idIndexes: map<int, int>)
  {
    e.left in idIndexes && e.right in idIndexes &&
    0 <= idIndexes[e.left] < |sites| && 0 <= idIndexes[e.right] < |sites|
  }

  /** `end` is what BuildRayEnd(index) computes for half-edge e. */
  predicate RayEndOf(e: VEdge, sites: seq<VSite>, idIndexes: map<int, int>, end: Vec2)
  {
    Keyed(e, sites, idIndexes) &&
    RayEnds(e.start, Point(sites[idIndexes[e.left]]), Point(sites[idIndexes[e.right]]), end)
  }

  /** Lines 134-140: the sites of half-edge `index` looked up by id (a
      missing id or index throws), then the ray end between them. */
  method RayEnd(edges: seq<VEdge>, index: int, sites: seq<VSite>, idIndexes: map<int, int>) returns (r: Result<Vec2>)
    ensures r.Ok? <==> 0 <= index < |edges| && Keyed(edges[index], sites, idIndexes)
    ensures r.Ok? ==> RayEndOf(edges[index], sites, idIndexes, r.value)
  {
    if !(0 <= index < |edges|) {
      return Err("index out of range");
    }
    var e := edges[index];
    if e.left !in idIndexes || e.right !in idIndexes {
      return Err("key not found");
    }
    var l, rr := idIndexes[e.left], idIndexes[e.right];
    if !(0 <= l < |sites|) || !(0 <= rr < |sites|) {
      return Err("index out of range");
    }
    var end := BuildRayEnd(e.start, Point(sites[l]), Point(sites[rr]));
    return Ok(end);
  }

  /** Every neighbour of a half-edge lies after it. */
  predicate Forward(edges: seq<VEdge>)
  {
    forall j :: 0 <= j < |edges| && edges[j].neighbor >= 0 ==> j < edges[j].neighbor
  }

  /** Every neighbour of a half-edge is a slot of the list. */
  predicate NeighboursIn(edges: seq<VEdge>)
  {
    forall j :: 0 <= j < |edges| ==> edges[j].neighbor < |edges|
  }

  /** The edge folded from slot g (lines 107-123): a lone half-edge runs
      from its start to its end, or to the built ray end when no circle
      closed it; a pair runs between the two ends, the missing one built
      from the half-edge whose end is missing. The result keeps the sites
      of slot g and has no neighbour. */
  predicate Folded(out: VEdge, edges: seq<VEdge>, ends: seq<Vec2>, sites: seq<VSite>, idIndexes: map<int, int>, g: int)
  {
    0 <= g < |edges| && g < |ends| &&
    var e, n := edges[g], edges[g].neighbor;
    out.left == e.left && out.right == e.right && out.neighbor == -1 &&
    if n < 0 then
      out.start == e.start &&
      (if IsNotSet(ends[g]) then RayEndOf(e, sites, idIndexes, out.end) else out.end == ends[g])
    else
      n < |ends| &&
      if IsNotSet(ends[g]) then out.start == ends[n] && RayEndOf(e, sites, idIndexes, out.end)
      else if IsNotSet(ends[n]) then
        out.start == ends[g] && n < |edges| && RayEndOf(edges[n], sites, idIndexes, out.end)
      else out.start == ends[g] && out.end == ends[n]
  }

  /** What the compaction leaves: one edge per group with the sites of the
      group's first slot, folded as Folded says when every neighbour lies
      ahead (as the sweep makes them), and the regions of the result. */
  ghost predicate Compacted(edges: seq<VEdge>, ends: seq<Vec2>, sites: seq<VSite>, idIndexes: map<int, int>,
                            out: seq<VEdge>, regions: MultiMap)
  {
    var g := Groups(edges, 0);
    |out| == |g| && regions == RegionsOf(out) &&
    (forall k :: 0 <= k < |out| ==>
       g[k] < |edges| && out[k].left == edges[g[k]].left && out[k].right == edges[g[k]].right &&
       out[k].neighbor == -1) &&
    (Forward(edges) ==> forall k :: 0 <= k < |out| ==> Folded(out[k], edges, ends, sites, idIndexes, g[k]))
  }

  /** Lines 106-123 for slot i of the list being rewritten: the folded
      edge, or the exception an end read past the list or a missing id
      raises. */
  method FoldEdge(cur: seq<VEdge>, i: int, ends: seq<Vec2>, sites: seq<VSite>, idIndexes: map<int, int>)
    returns (r: Result<VEdge>)
    requires 0 <= i < |cur|
    ensures r.Ok? ==> Folded(r.value, cur, ends, sites, idIndexes, i)
    ensures i < |ends| && Keyed(cur[i], sites, idIndexes) &&
            (cur[i].neighbor >= 0 ==> cur[i].neighbor < |ends| && cur[i].neighbor < |cur| &&
                                      Keyed(cur[cur[i].neighbor], sites, idIndexes))
            ==> r.Ok?
  {
    if i >= |ends| {
      return Err("index out of range");
    }
    var e := cur[i];
    var n := e.neighbor;
    if n < 0 {
      if IsNotSet(ends[i]) {
        var end := RayEnd(cur, i, sites, idIndexes);
        if end.Err? {
          return Err(end.message);
        }
        return Ok(Segment(e.start, end.value, e.left, e.right));
      }
      return Ok(Segment(e.start, ends[i], e.left, e.right));
    }
    if n >= |ends| {
      return Err("index out of range");
    }
    if IsNotSet(ends[i]) {
      var end := RayEnd(cur, i, sites, idIndexes);
      if end.Err? {
        return Err(end.message);
      }
      return Ok(Segment(ends[n], end.value, e.left, e.right));
    } else if IsNotSet(ends[n]) {
      var end := RayEnd(cur, n, sites, idIndexes);
      if end.Err? {
        return Err(end.message);
      }
      return Ok(Segment(ends[i], end.value, e.left, e.right));
    }
    return Ok(Segment(ends[i], ends[n], e.left, e.right));
  }

  /** A fold reads slot g and its neighbour only: it is the same over any
      list that agrees with `edges` on them. */
  lemma FoldedFrame(out: VEdge, cur: seq<VEdge>, edges: seq<VEdge>, ends: seq<Vec2>, sites: seq<VSite>,
                    idIndexes: map<int, int>, g: int)
    requires Folded(out, cur, ends, sites, idIndexes, g)
    requires |cur| == |edges| && cur[g] == edges[g]
    requires 0 <= cur[g].neighbor < |cur| ==> cur[cur[g].neighbor] == edges[cur[g].neighbor]
    ensures Folded(out, edges, ends, sites, idIndexes, g)
  {
  }

  /** Before reading slot i: the unread slots are intact and the groups
      read so far are the first ones, each written edge at its own slot. */
  ghost predicate Unread(edges: seq<VEdge>, cur: seq<VEdge>, starts: seq<nat>, i: int)
  {
    |starts| <= i <= |edges| + 1 && |starts| <= |edges| && |cur| == |edges| &&
    (forall j :: i <= j < |edges| ==> cur[j] == edges[j]) &&
    Groups(edges, 0) == starts + Groups(edges, i)
  }

  /** Each written edge keeps the sites of the slot it came from and has
      no neighbour. */
  ghost predicate Written(edges: seq<VEdge>, cur: seq<VEdge>, starts: seq<nat>)
    requires |starts| <= |cur|
  {
    forall k :: 0 <= k < |starts| ==>
      starts[k] < |edges| && cur[k].left == edges[starts[k]].left && cur[k].right == edges[starts[k]].right &&
      cur[k].neighbor == -1
  }

  /** Each written edge is the fold of the slot it came from, when every
      neighbour lies ahead. */
  ghost predicate FoldedAll(edges: seq<VEdge>, ends: seq<Vec2>, sites: seq<VSite>, idIndexes: map<int, int>,
                            cur: seq<VEdge>, starts: seq<nat>)
    requires |starts| <= |cur|
  {
    Forward(edges) ==> forall k :: 0 <= k < |starts| ==> Folded(cur[k], edges, ends, sites, idIndexes, starts[k])
  }

  /** When every half-edge is keyed, so is every slot. */
  ghost predicate KeyedAll(edges: seq<VEdge>, sites: seq<VSite>, idIndexes: map<int, int>, cur: seq<VEdge>)
  {
    (forall j :: 0 <= j < |edges| ==> Keyed(edges[j], sites, idIndexes)) ==>
      forall j :: 0 <= j < |cur| ==> Keyed(cur[j], sites, idIndexes)
  }

  /** The state of the compaction before reading slot i, with
      `|starts|` edges written and `regions` indexing them. */
  ghost predicate Progress(edges: seq<VEdge>, ends: seq<Vec2>, sites: seq<VSite>, idIndexes: map<int, int>,
                           cur: seq<VEdge>, starts: seq<nat>, regions: MultiMap, i: int)
  {
    Unread(edges, cur, starts, i) && Written(edges, cur, starts) &&
    FoldedAll(edges, ends, sites, idIndexes, cur, starts) &&
    regions == RegionsOf(cur[..|starts|]) && KeyedAll(edges, sites, idIndexes, cur)
  }

  lemma UnreadStep(edges: seq<VEdge>, cur: seq<VEdge>, starts: seq<nat>, i: int, edge: VEdge)
    requires Unread(edges, cur, starts, i) && i < |cur|
    ensures Unread(edges, cur[|starts| := edge], starts + [i], i + if cur[i].neighbor < 0 then 1 else 2)
  {
    var step := if cur[i].neighbor < 0 then 1 else 2;
    assert Groups(edges, i) == [i] + Groups(edges, i + step);
  }

  lemma WrittenStep(edges: seq<VEdge>, cur: seq<VEdge>, starts: seq<nat>, i: int, edge: VEdge)
    requires |starts| < |cur| == |edges| && Written(edges, cur, starts) && 0 <= i < |cur|
    requires edge.left == cur[i].left && edge.right == cur[i].right && edge.neighbor == -1
    requires cur[i] == edges[i]
    ensures Written(edges, cur[|starts| := edge], starts + [i])
  {
  }

  lemma FoldedStep(edges: seq<VEdge>, ends: seq<Vec2>, sites: seq<VSite>, idIndexes: map<int, int>,
                   cur: seq<VEdge>, starts: seq<nat>, i: int, edge: VEdge)
    requires |starts| < |cur| == |edges| && FoldedAll(edges, ends, sites, idIndexes, cur, starts)
    requires 0 <= i < |cur| && Folded(edge, cur, ends, sites, idIndexes, i)
    requires forall j :: i <= j < |edges| ==> cur[j] == edges[j]
    ensures FoldedAll(edges, ends, sites, idIndexes, cur[|starts| := edge], starts + [i])
  {
    if Forward(edges) {
      FoldedFrame(edge, cur, edges, ends, sites, idIndexes, i);
    }
  }

  /** Nothing read, nothing written. */
  lemma ProgressStart(edges: seq<VEdge>, ends: seq<Vec2>, sites: seq<VSite>, idIndexes: map<int, int>)
    ensures Progress(edges, ends, sites, idIndexes, edges, [], [], 0)
  {
    assert edges[..0] == [];
    assert [] + Groups(edges, 0) == Groups(edges, 0);
  }

  /** One turn of the loop: writing the edge folded from slot i to slot
      newIndex and moving past its group keeps Progress. */
  lemma ProgressStep(edges: seq<VEdge>, ends: seq<Vec2>, sites: seq<VSite>, idIndexes: map<int, int>,
                     cur: seq<VEdge>, starts: seq<nat>, regions: MultiMap, i: int, edge: VEdge)
    requires Progress(edges, ends, sites, idIndexes, cur, starts, regions, i)
    requires 0 <= i < |cur| && Folded(edge, cur, ends, sites, idIndexes, i)
    ensures var newIndex, step := |starts|, if cur[i].neighbor < 0 then 1 else 2;
      Progress(edges, ends, sites, idIndexes, cur[newIndex := edge], starts + [i],
               MultiAdd(MultiAdd(regions, edge.left, newIndex), edge.right, newIndex), i + step)
  {
    UnreadStep(edges, cur, starts, i, edge);
    WrittenStep(edges, cur, starts, i, edge);
    FoldedStep(edges, ends, sites, idIndexes, cur, starts, i, edge);
    CompactStep(cur, |starts|, edge, regions);
  }

  /** Every half-edge keyed with its neighbour in the lists: the slot
      about to be read can be folded. */
  lemma ProgressReady(edges: seq<VEdge>, ends: seq<Vec2>, sites: seq<VSite>, idIndexes: map<int, int>,
                      cur: seq<VEdge>, starts: seq<nat>, regions: MultiMap, i: int)
    requires Progress(edges, ends, sites, idIndexes, cur, starts, regions, i) && 0 <= i < |cur|
    ensures |ends| == |edges| && NeighboursIn(edges) && (forall j :: 0 <= j < |edges| ==> Keyed(edges[j], sites, idIndexes))
            ==> i < |ends| && Keyed(cur[i], sites, idIndexes) &&
                (cur[i].neighbor >= 0 ==> cur[i].neighbor < |ends| && cur[i].neighbor < |cur| &&
                                          Keyed(cur[cur[i].neighbor], sites, idIndexes))
  {
    assert cur[i] == edges[i];
  }

  /** Every slot read: the written prefix is the compacted list. */
  lemma ProgressEnd(edges: seq<VEdge>, ends: seq<Vec2>, sites: seq<VSite>, idIndexes: map<int, int>,
                    cur: seq<VEdge>, starts: seq<nat>, regions: MultiMap, i: int)
    requires Progress(edges, ends, sites, idIndexes, cur, starts, regions, i) && i >= |cur|
    ensures Compacted(edges, ends, sites, idIndexes, cur[..|starts|], regions)
  {
    assert Groups(edges, i) == [];
    assert starts == Groups(edges, 0);
  }

  /** MergeHalfEdgesAndBuildRayEnds (lines 100-132), in place: edge i is
      read from the list being rewritten, the folded edge goes to slot
      newIndex (never past i, so no unread slot is overwritten), a pair
      skips its second slot, and the list is cut to newIndex. Reading an
      end or a half-edge past the lists, or a missing id, throws. */
  method MergeHalfEdges(edges: seq<VEdge>, ends: seq<Vec2>, sites: seq<VSite>, idIndexes: map<int, int>)
    returns (r: Result<(seq<VEdge>, MultiMap)>)
    ensures r.Ok? ==> Compacted(edges, ends, sites, idIndexes, r.value.0, r.value.1)
    ensures |ends| == |edges| && NeighboursIn(edges) && (forall j :: 0 <= j < |edges| ==> Keyed(edges[j], sites, idIndexes))
            ==> r.Ok?
  {
    var cur := edges;
    var regions: MultiMap := [];
    var newIndex := 0;
    var i := 0;
    ghost var starts: seq<nat> := [];
    ProgressStart(edges, ends, sites, idIndexes);
    while i < |cur|
      invariant Progress(edges, ends, sites, idIndexes, cur, starts, regions, i) && newIndex == |starts|
    {
      ProgressReady(edges, ends, sites, idIndexes, cur, starts, regions, i);
      var edge := FoldEdge(cur, i, ends, sites, idIndexes);
      if edge.Err? {
        return Err(edge.message);
      }
      ProgressStep(edges, ends, sites, idIndexes, cur, starts, regions, i, edge.value);
      var step := if cur[i].neighbor < 0 then 1 else 2;
      starts := starts + [i];
      cur := cur[newIndex := edge.value];
      regions := MultiAdd(MultiAdd(regions, edge.value.left, newIndex), edge.value.right, newIndex);
      newIndex := newIndex + 1;
      i := i + step;
    }
    ProgressEnd(edges, ends, sites, idIndexes, cur, starts, regions, i);
    return Ok((cur[..newIndex], regions));
  }

  /** Writing slot newIndex extends the written prefix by the new edge and
      the regions by its two entries. */
  lemma CompactStep(cur: seq<VEdge>, newIndex: int, edge: VEdge, regions: MultiMap)
    requires 0 <= newIndex < |cur| && regions == RegionsOf(cur[..newIndex])
    ensures cur[newIndex := edge][..newIndex + 1] == cur[..newIndex] + [edge]
    ensures MultiAdd(MultiAdd(regions, edge.left, newIndex), edge.right, newIndex) ==
            RegionsOf(cur[newIndex := edge][..newIndex + 1])
  {
    var w := cur[newIndex := edge][..newIndex + 1];
    assert w == cur[..newIndex] + [edge];
    assert w[..newIndex] == cur[..newIndex];
  }

  // ------------------------------------------------------------ the job

  /** What a finished chunk job holds: Edges, Regions, SiteIdIndexes,
      SiteIndexIds and ConvexHull. */
  datatype Chunk = Chunk(edges: seq<VEdge>, regions: MultiMap, idIndexes: map<int, int>,
                         indexIds: map<int, int>, hull: seq<VSite>)

  /** Execute (lines 27-98) for a job made by CreateJob (lines 328-344):
      the maps and the queue are seeded, the tree arrays filled with -1,
      the events popped until the queue is empty (a site event adds an arc;
      a circle event whose id was cancelled is dropped from `deleted`; any
      other removes its arc), the half-edges folded, and the convex hull
      built. `halfEdges` and `ends` are the sweep's lists before folding.
      At most `fuel` events are handled. */
  method Execute(sites: seq<VSite>, num: Numerics, fuel: nat)
    returns (r: Result<Chunk>, ghost halfEdges: seq<VEdge>, ghost ends: seq<Vec2>)
    ensures |sites| == 0 ==> r.Err?
    ensures r.Ok? ==> MapsSeeded(sites, r.value.idIndexes, r.value.indexIds)
    ensures r.Ok? ==> |ends| == |halfEdges| <= 4 * |sites| &&
                      Compacted(halfEdges, ends, sites, r.value.idIndexes, r.value.edges, r.value.regions)
    ensures r.Ok? ==> r.value.hull == AndrewsHull(SortSites(sites))
  {
    halfEdges, ends := [], [];
    var idIndexes, indexIds := SeedMaps(sites);
    var n := |sites|;
    var st := new SweepState(sites, indexIds, 2 * n, (n * 105) / 100, 4 * n);
    var o := st.Seed();
    // (n * 105) / 100 >= n: the event array holds every site event
    assert o.Pass?;
    var steps := fuel;
    while st.heap.count != 0
      invariant st.Valid() && st.sites == sites && st.edgesCapacity == 4 * n
      invariant fresh(st.tree) && fresh(st.tree.value) && fresh(st.tree.left) && fresh(st.tree.right) &&
                fresh(st.tree.parent) && fresh(st.tree.previous) && fresh(st.tree.next) && fresh(st.tree.red)
      invariant fresh(st.heap) && fresh(st.heap.events)
      decreases steps
    {
      if steps == 0 {
        return Err("event limit reached"), halfEdges, ends;
      }
      steps := steps - 1;
      var popped := st.Pop();
      var e := popped.value;
      if e.isSiteEvent {
        ghost var leftNode, rightNode, at;
        o, leftNode, rightNode, at := st.AddBeachArc(e, num);
      } else if e.id in st.deleted {
        st.Discard(e);
        o := Pass;
      } else {
        ghost var lo, k, hi;
        o, lo, k, hi := st.RemoveBeachArc(e, num);
      }
      if o.Fail? {
        return Err(o.message), halfEdges, ends;
      }
    }
    st.Unseal();
    halfEdges, ends := st.edges, st.edgesEnds;
    var merged := MergeHalfEdges(st.edges, st.edgesEnds, sites, idIndexes);
    if merged.Err? {
      return Err(merged.message), halfEdges, ends;
    }
    var hull := BuildConvexHull(sites);
    if hull.Err? {
      return Err(hull.message), halfEdges, ends;
    }
    r := Ok(Chunk(merged.value.0, merged.value.1, idIndexes, indexIds, hull.value));
  }
}
