/** The bookkeeping of the sweep's arc and edge lists
    (Assets/Voronoi/Handlers/BeachLine.cs and
    Assets/Voronoi/Jobs/FortunesWithConvexHull.cs), stated over values: the
    values the tree nodes store, the three parallel arc lists, the edge
    lists and the site ids. */
module SweepShape {
  import opened Events

  /** The arc lists run in step with the tree: node m stores arc m, every
      list has one entry per node, and every arc names a site. */
  ghost predicate ArcsOk(value: seq<int>, count: int, capacity: int, arcSites: seq<int>, arcEdges: seq<int>,
                         arcEvents: seq<FortuneEventArc>, sites: int)
  {
    |value| == capacity && 0 <= count <= capacity &&
    |arcSites| == count && |arcEdges| == count && |arcEvents| == count &&
    (forall m :: 0 <= m < count ==> value[m] == m) &&
    (forall a :: 0 <= a < count ==> 0 <= arcSites[a] < sites)
  }

  /** edges and edgesEnds run in step within their capacity, and every arc's
      edge is -1 or an edge of the list. */
  ghost predicate EdgesOk(edges: nat, ends: nat, capacity: int, arcEdges: seq<int>)
  {
    edges == ends <= capacity && forall a :: 0 <= a < |arcEdges| ==> -1 <= arcEdges[a] < edges
  }

  /** Every site index has an id, and the site events took the first ids. */
  ghost predicate SitesOk(sites: nat, sitesMap: map<int, int>, nextId: int)
  {
    (forall i :: 0 <= i < sites ==> i in sitesMap) && sites <= nextId
  }

  /** Lines 100-106 of BeachLine.cs: the next node stores the next arc,
      which has the site, no edge and no event. */
  lemma ArcsGrow(value: seq<int>, count: int, capacity: int, arcSites: seq<int>, arcEdges: seq<int>,
                 arcEvents: seq<FortuneEventArc>, sites: int, site: int)
    requires ArcsOk(value, count, capacity, arcSites, arcEdges, arcEvents, sites)
    requires count < capacity && 0 <= site < sites
    ensures ArcsOk(value[count := count], count + 1, capacity, arcSites + [site], arcEdges + [-1],
                   arcEvents + [NullArc], sites)
  {
    var v := value[count := count];
    forall m | 0 <= m < count + 1
      ensures v[m] == m
    {
      if m < count {
        assert value[m] == m;
      }
    }
    forall a | 0 <= a < count + 1
      ensures 0 <= (arcSites + [site])[a] < sites
    {
      if a < count {
        assert (arcSites + [site])[a] == arcSites[a];
      }
    }
  }

  /** A new arc without an edge keeps the edge bookkeeping. */
  lemma EdgesGrowArc(edges: nat, capacity: int, arcEdges: seq<int>)
    requires EdgesOk(edges, edges, capacity, arcEdges)
    ensures EdgesOk(edges, edges, capacity, arcEdges + [-1])
  {
    forall a | 0 <= a < |arcEdges| + 1
      ensures -1 <= (arcEdges + [-1])[a] < edges
    {
      if a < |arcEdges| {
        assert (arcEdges + [-1])[a] == arcEdges[a];
      }
    }
  }

  /** An insertion keeps what was on the line. */
  lemma InsertKeeps(q: seq<int>, k: int, n: int, m: int)
    requires 0 <= k <= |q| && m in q
    ensures m in q[..k] + [n] + q[k..]
  {
    assert q == q[..k] + q[k..];
  }

  /** Two insertions, the second right after the first, put both in a row. */
  lemma InsertNext(q: seq<int>, k: int, n: int, r: int)
    requires 0 <= k <= |q|
    ensures var q' := q[..k] + [n] + q[k..];
      q'[..k + 1] + [r] + q'[k + 1..] == q[..k] + [n, r] + q[k..]
  {
    var q' := q[..k] + [n] + q[k..];
    assert q'[..k + 1] == q[..k] + [n];
    assert q'[k + 1..] == q[k..];
  }

  /** Appending a slot and then setting it is setting, then appending. */
  lemma AppendThenSet(s: seq<int>, i: int, v: int, w: int)
    requires 0 <= i < |s|
    ensures (s + [-1])[i := v][|s| := w] == s[i := v] + [w]
  {
  }

  /** Setting an appended slot is appending the value. */
  lemma SetAppended(s: seq<int>, w: int)
    ensures (s + [-1])[|s| := w] == s + [w]
  {
  }

  /** Setting an appended slot and then another is setting the other, then
      appending. */
  lemma SetAppendedThenSet(s: seq<int>, i: int, v: int, w: int)
    requires 0 <= i < |s|
    ensures (s + [-1])[|s| := w][i := v] == s[i := v] + [w]
  {
  }
}
