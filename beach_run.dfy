/** Lines 296-330 of RemoveBeachArc (Assets/Voronoi/Handlers/BeachLine.cs)
    on the values of the three things they write: the edge ends, the arcs'
    records of their pending circle events and the `deleted` ids. The tree
    is read through its `value` and `next` arrays; q is its in-order
    sequence, the beach line, k the place of the handled arc, [lo, hi) the
    run of places that disappears and lo - 1, hi the survivors prev and
    next. */
module BeachRun {
  import opened Wrappers
  import opened VGeometry
  import opened Events
  import opened BeachRemove
  import opened BeachTrack
  import opened SweepShape
  import opened Edges

  /** What the removal reads: the tree's links agree with the line, node m
      stores arc m, and every arc's edge is -1 or an index of ends. */
  ghost predicate Readable(q: seq<int>, pos: seq<int>, count: int, previous: seq<int>, next: seq<int>,
                           value: seq<int>, arcEdges: seq<int>, records: seq<FortuneEventArc>, ends: int)
  {
    LinedUp(q, count, previous, next) && Placed(q, pos) &&
    |value| >= count && (forall m :: 0 <= m < count ==> value[m] == m) &&
    |arcEdges| == count && |records| == count &&
    (forall a :: 0 <= a < count ==> -1 <= arcEdges[a] < ends)
  }

  /** The sweep's arc and edge bookkeeping gives what the removal reads. */
  lemma ReadableOf(q: seq<int>, pos: seq<int>, count: int, previous: seq<int>, next: seq<int>, value: seq<int>,
                   capacity: int, arcSites: seq<int>, arcEdges: seq<int>, records: seq<FortuneEventArc>, sites: int,
                   edges: nat, ends: nat, edgesCapacity: int)
    requires ArcsOk(value, count, capacity, arcSites, arcEdges, records, sites)
    requires EdgesOk(edges, ends, edgesCapacity, arcEdges)
    requires LinedUp(q, count, previous, next) && Placed(q, pos)
    ensures Readable(q, pos, count, previous, next, value, arcEdges, records, ends)
  {
  }

  /** New edge ends and records of the same lengths keep that bookkeeping. */
  lemma StoredOk(value: seq<int>, count: int, capacity: int, arcSites: seq<int>, arcEdges: seq<int>,
                 records: seq<FortuneEventArc>, records': seq<FortuneEventArc>, sites: int,
                 edges: nat, ends: nat, ends': nat, edgesCapacity: int)
    requires ArcsOk(value, count, capacity, arcSites, arcEdges, records, sites)
    requires EdgesOk(edges, ends, edgesCapacity, arcEdges)
    requires |records'| == |records| && ends' == ends
    ensures ArcsOk(value, count, capacity, arcSites, arcEdges, records', sites)
    ensures EdgesOk(edges, ends', edgesCapacity, arcEdges)
  {
  }

  /** EndRun on the sweep's own bookkeeping: the handled event e is the
      one its arc records, EventPop took the only queued event with its id,
      and [lo, hi) is the run the two walks found. The bookkeeping holds
      again for the new edge ends and records. */
  method CloseRunOn(ends: seq<Vec2>, records: seq<FortuneEventArc>, deleted: set<int>, arcEdges: seq<int>,
                    value: seq<int>, next: seq<int>, e: FortuneEvent, prev: int, nxt: int, removed: seq<int>, v: Vec2,
                    ghost q: seq<int>, ghost pos: seq<int>, ghost count: int, ghost previous: seq<int>,
                    ghost k: int, ghost lo: int, ghost hi: int, ghost capacity: int, ghost arcSites: seq<int>,
                    ghost edges: nat, ghost edgesCapacity: int,
                    ghost queued: multiset<FortuneEvent>, ghost nextId: int, ghost sites: int)
    returns (o: Outcome, ends': seq<Vec2>, records': seq<FortuneEventArc>, deleted': set<int>)
    requires ArcsOk(value, count, capacity, arcSites, arcEdges, records, sites)
    requires EdgesOk(edges, |ends|, edgesCapacity, arcEdges)
    requires LinedUp(q, count, previous, next) && Placed(q, pos)
    requires Tracked(records, q, queued, deleted, nextId, sites)
    requires e.id > 0 && 0 <= e.node < |records| && records[e.node] == FromEvent(e) && NoneQueued(queued, e.id)
    requires 1 <= lo <= k < hi < |q| && q[k] == e.node &&
      lo == LeftStop(q, records, e, k - 1) + 1 && hi == RightStop(q, records, e, k + 1) &&
      prev == q[lo - 1] && nxt == q[hi] &&
      |removed| == hi - lo - 1 && forall t :: 0 <= t < |removed| ==> removed[t] == q[RunPlace(lo, k, t)]
    ensures o.Pass? <==> -1 !in EdgesAt(arcEdges, q, Span(lo, hi))
    ensures o.Pass? ==>
      EndsAt(ends', ends, EdgesAt(arcEdges, q, Span(lo, hi)), v) &&
      ClearedAt(records', records, ArcsAt(q, Span(lo - 1, hi))) &&
      deleted' == deleted + IdsOf(records, ArcsAt(q, Span(lo - 1, hi) - {k})) &&
      ArcsOk(value, count, capacity, arcSites, arcEdges, records', sites) &&
      EdgesOk(edges, |ends'|, edgesCapacity, arcEdges) &&
      Tracked(records', q, queued, deleted', nextId, sites)
  {
    RunCollapses(q, records, e, lo, k, hi, removed);
    ReadableOf(q, pos, count, previous, next, value, capacity, arcSites, arcEdges, records, sites,
               edges, |ends|, edgesCapacity);
    assert Exists(records[e.node]);
    o, ends', records', deleted' := EndRun(ends, records, deleted, arcEdges, value, next, e.node, prev, nxt, removed, v,
                                           q, pos, count, previous, k, lo, hi, queued, nextId, sites);
    if o.Pass? {
      StoredOk(value, count, capacity, arcSites, arcEdges, records, records', sites, edges, |ends|, |ends'|,
               edgesCapacity);
    }
  }

  /** Lines 296-330. The vertex v becomes the end of the edges of every arc
      from place lo to hi; the records of every arc from lo - 1 to hi are
      cleared, and the ids of all of them but the handled arc's go into
      `deleted`: the handled event has left the queue already. Fails, as
      the source's index of -1 would, exactly when one of those arcs has no
      edge. The bookkeeping of pending events is kept. */
  method EndRun(ends: seq<Vec2>, records: seq<FortuneEventArc>, deleted: set<int>, arcEdges: seq<int>,
                value: seq<int>, next: seq<int>, node: int, prev: int, nxt: int, removed: seq<int>, v: Vec2,
                ghost q: seq<int>, ghost pos: seq<int>, ghost count: int, ghost previous: seq<int>,
                ghost k: int, ghost lo: int, ghost hi: int,
                ghost queued: multiset<FortuneEvent>, ghost nextId: int, ghost sites: int)
    returns (o: Outcome, ends': seq<Vec2>, records': seq<FortuneEventArc>, deleted': set<int>)
    requires Readable(q, pos, count, previous, next, value, arcEdges, records, |ends|)
    requires 1 <= lo <= k < hi < |q| && q[k] == node && q[lo - 1] == prev && q[hi] == nxt
    requires |removed| == hi - lo - 1 && forall t :: 0 <= t < |removed| ==> removed[t] == q[RunPlace(lo, k, t)]
    requires forall t :: 0 <= t < |removed| ==> Exists(RecordAt(records, removed[t]))
    requires Exists(records[node]) && NoneQueued(queued, records[node].id)
    requires Tracked(records, q, queued, deleted, nextId, sites)
    ensures o.Pass? <==> -1 !in EdgesAt(arcEdges, q, Span(lo, hi))
    ensures o.Pass? ==>
      EndsAt(ends', ends, EdgesAt(arcEdges, q, Span(lo, hi)), v) &&
      ClearedAt(records', records, ArcsAt(q, Span(lo - 1, hi))) &&
      deleted' == deleted + IdsOf(records, ArcsAt(q, Span(lo - 1, hi) - {k})) &&
      Tracked(records', q, queued, deleted', nextId, sites)
  {
    o, ends', records', deleted' := EndHandled(ends, records, deleted, arcEdges, value, node, nxt, v,
                                               q, pos, count, previous, next, k, lo, hi, queued, nextId, sites);
    if o.Fail? {
      return;
    }
    var t := 0;
    while t < |removed|
      invariant 0 <= t <= |removed| && |ends'| == |ends| && |records'| == |records|
      invariant RunState(ends', ends, arcEdges, q, records', records, deleted', deleted, lo, k, hi, t, v)
      invariant Tracked(records', q, queued, deleted', nextId, sites)
    {
      o, ends', records', deleted' := EndEntry(ends', ends, records', records, deleted', deleted, arcEdges,
                                               value, next, removed[t], v, q, pos, count, previous,
                                               k, lo, hi, t, queued, nextId, sites);
      if o.Fail? {
        return;
      }
      t := t + 1;
    }
    RunStateEnd(ends', ends, arcEdges, q, records', records, deleted', deleted, lo, k, hi, t, v);
    records', deleted' := ClearSurvivors(records', records, deleted', deleted, value, prev, nxt,
                                         q, pos, count, k, lo, hi, queued, nextId, sites);
    o := Pass;
  }

  /** Lines 296-302: the edges of the handled arc and of next end at v,
      and the handled arc's record is cleared; its id does not go into
      `deleted`, since no queued event carries it any more. */
  method EndHandled(ends: seq<Vec2>, records: seq<FortuneEventArc>, deleted: set<int>, arcEdges: seq<int>,
                    value: seq<int>, node: int, nxt: int, v: Vec2,
                    ghost q: seq<int>, ghost pos: seq<int>, ghost count: int, ghost previous: seq<int>,
                    ghost next: seq<int>, ghost k: int, ghost lo: int, ghost hi: int,
                    ghost queued: multiset<FortuneEvent>, ghost nextId: int, ghost sites: int)
    returns (o: Outcome, ends': seq<Vec2>, records': seq<FortuneEventArc>, deleted': set<int>)
    requires Readable(q, pos, count, previous, next, value, arcEdges, records, |ends|)
    requires 0 <= lo <= k < hi < |q| && q[k] == node && q[hi] == nxt
    requires Exists(records[node]) && NoneQueued(queued, records[node].id)
    requires Tracked(records, q, queued, deleted, nextId, sites)
    ensures o.Fail? ==> -1 in EdgesAt(arcEdges, q, Span(lo, hi))
    ensures o.Pass? ==>
      |ends'| == |ends| && |records'| == |records| &&
      RunState(ends', ends, arcEdges, q, records', records, deleted', deleted, lo, k, hi, 0, v) &&
      Tracked(records', q, queued, deleted', nextId, sites)
  {
    ends', records', deleted' := ends, records, deleted;
    assert value[q[k]] == q[k] && value[q[hi]] == q[hi];
    var arcIndex := value[node];
    var i1 := arcEdges[arcIndex];
    if i1 == -1 {
      EdgeInSpan(arcEdges, q, lo, hi, k);
      return Fail("index out of range"), ends', records', deleted';
    }
    ends' := ends'[i1 := v];
    var i2 := arcEdges[value[nxt]];
    if i2 == -1 {
      EdgeInSpan(arcEdges, q, lo, hi, hi);
      return Fail("index out of range"), ends', records', deleted';
    }
    ends' := ends'[i2 := v];
    HandledEnds(ends, arcEdges, q, k, hi, v);
    HandledCleared(records, q, k);
    TrackedClearHandled(records', q, queued, deleted', nextId, sites, arcIndex);
    records' := records'[arcIndex := NullArc];
    RunStateStart(ends', ends, arcEdges, q, records', records, deleted', lo, k, hi, v);
    o := Pass;
  }

  /** Entry t of the loop of lines 305-313, for the collapsed arc c at place
      RunPlace(lo, k, t): the edges of c and of the arc after it end at v,
      and c's pending event, which it has since it collapsed, is cancelled. */
  method EndEntry(ends: seq<Vec2>, ends0: seq<Vec2>, records: seq<FortuneEventArc>, records0: seq<FortuneEventArc>,
                  deleted: set<int>, ghost deleted0: set<int>, arcEdges: seq<int>, value: seq<int>, next: seq<int>,
                  c: int, v: Vec2, ghost q: seq<int>, ghost pos: seq<int>, ghost count: int,
                  ghost previous: seq<int>, ghost k: int, ghost lo: int, ghost hi: int, ghost t: nat,
                  ghost queued: multiset<FortuneEvent>, ghost nextId: int, ghost sites: int)
    returns (o: Outcome, ends': seq<Vec2>, records': seq<FortuneEventArc>, deleted': set<int>)
    requires Readable(q, pos, count, previous, next, value, arcEdges, records0, |ends0|)
    requires 0 <= lo <= k < hi < |q| && t < hi - lo - 1
    requires c == q[RunPlace(lo, k, t)] && Exists(RecordAt(records0, c))
    requires RunState(ends, ends0, arcEdges, q, records, records0, deleted, deleted0, lo, k, hi, t, v)
    requires Tracked(records, q, queued, deleted, nextId, sites)
    ensures o.Fail? ==> -1 in EdgesAt(arcEdges, q, Span(lo, hi))
    ensures o.Pass? ==>
      |ends'| == |ends| && |records'| == |records| &&
      RunState(ends', ends0, arcEdges, q, records', records0, deleted', deleted0, lo, k, hi, t + 1, v) &&
      Tracked(records', q, queued, deleted', nextId, sites)
  {
    ends', records', deleted' := ends, records, deleted;
    ghost var p := RunPlace(lo, k, t);
    RunStep(lo, k, hi, t);
    assert next[q[p]] == q[p + 1] && value[q[p]] == q[p] && value[q[p + 1]] == q[p + 1];
    var a := value[c];
    var i1 := arcEdges[a];
    if i1 == -1 {
      RunStateFail(arcEdges, q, lo, k, hi, t);
      return Fail("index out of range"), ends', records', deleted';
    }
    ends' := ends'[i1 := v];
    var i2 := arcEdges[value[next[c]]];
    if i2 == -1 {
      RunStateFail(arcEdges, q, lo, k, hi, t);
      return Fail("index out of range"), ends', records', deleted';
    }
    ends' := ends'[i2 := v];
    RunStateStep(ends, ends0, arcEdges, q, pos, records, records0, deleted, deleted0, lo, k, hi, t, v, c, i1, i2);
    TrackedCancel(records', q, queued, deleted', nextId, sites, a);
    deleted' := deleted' + {records'[a].id};
    records' := records'[a := NullArc];
    o := Pass;
  }

  /** Lines 316-330: the pending events of prev and of next, if any, are
      cancelled. */
  method ClearSurvivors(records: seq<FortuneEventArc>, ghost records0: seq<FortuneEventArc>, deleted: set<int>,
                        ghost deleted0: set<int>, value: seq<int>, prev: int, nxt: int,
                        ghost q: seq<int>, ghost pos: seq<int>, ghost count: int, ghost k: int, ghost lo: int,
                        ghost hi: int, ghost queued: multiset<FortuneEvent>, ghost nextId: int, ghost sites: int)
    returns (records': seq<FortuneEventArc>, deleted': set<int>)
    requires Placed(q, pos) && 1 <= lo <= k < hi < |q| && q[lo - 1] == prev && q[hi] == nxt
    requires |value| >= count && (forall m :: 0 <= m < count ==> value[m] == m)
    requires |records0| == count && 0 <= prev < count && 0 <= nxt < count
    requires ClearedAt(records, records0, ArcsAt(q, Span(lo, hi - 1)))
    requires deleted == deleted0 + IdsOf(records0, ArcsAt(q, ClearedPlaces(lo, k, hi - lo - 1)))
    requires Tracked(records, q, queued, deleted, nextId, sites)
    ensures |records'| == |records|
    ensures ClearedAt(records', records0, ArcsAt(q, Span(lo - 1, hi)))
    ensures deleted' == deleted0 + IdsOf(records0, ArcsAt(q, Span(lo - 1, hi) - {k}))
    ensures Tracked(records', q, queued, deleted', nextId, sites)
  {
    records', deleted' := records, deleted;
    ghost var cleared, cancelled := Span(lo, hi - 1), ClearedPlaces(lo, k, hi - lo - 1);
    ClearSurvivor(records', records0, deleted', deleted0, q, pos, cleared, cancelled, lo - 1);
    var prevArcIndex := value[prev];
    var prevArcEvent := records'[prevArcIndex];
    if Exists(prevArcEvent) {
      TrackedCancel(records', q, queued, deleted', nextId, sites, prevArcIndex);
      deleted' := deleted' + {prevArcEvent.id};
      records' := records'[prevArcIndex := NullArc];
    }
    ClearSurvivor(records', records0, deleted', deleted0, q, pos, cleared + {lo - 1}, cancelled + {lo - 1}, hi);
    var nextArcIndex := value[nxt];
    var nextArcEvent := records'[nextArcIndex];
    if Exists(nextArcEvent) {
      TrackedCancel(records', q, queued, deleted', nextId, sites, nextArcIndex);
      deleted' := deleted' + {nextArcEvent.id};
      records' := records'[nextArcIndex := NullArc];
    }
    Survivors(lo, k, hi);
  }

  // -------------------------------------------------------------------
  // What RemoveBeachArc leaves behind, over values.

  /** The walks of lines 262-294 found the run [lo, hi) around the handled
      arc at place k of the beach line q. */
  ghost predicate Walked(q: seq<int>, records: seq<FortuneEventArc>, e: FortuneEvent, k: int, lo: int, hi: int)
  {
    1 <= lo <= k < hi < |q| && q[k] == e.node &&
    lo == LeftStop(q, records, e, k - 1) + 1 && hi == RightStop(q, records, e, k + 1)
  }

  /** Lines 332-333: one edge more, from v with the site of arc next on its
      left and that of arc prev on its right. */
  ghost predicate Joined(edges: seq<VEdge>, before: seq<VEdge>, v: Vec2, arcSites: seq<int>, next: int, prev: int,
                         sitesMap: map<int, int>)
  {
    |edges| == |before| + 1 && edges[..|before|] == before &&
    0 <= next < |arcSites| && 0 <= prev < |arcSites| &&
    FromSites(v, arcSites[next], arcSites[prev], sitesMap) == Ok(edges[|before|])
  }

  /** The edges of w end at v, and the new edge has no end yet. */
  ghost predicate Ended(ends: seq<Vec2>, before: seq<Vec2>, w: set<int>, v: Vec2)
  {
    |ends| == |before| + 1 && ends[|before|] == Unset && EndsAt(ends[..|before|], before, w, v)
  }

  /** Ending the edges of w and then adding an edge without an end. */
  lemma EndedOf(ends: seq<Vec2>, mid: seq<Vec2>, before: seq<Vec2>, w: set<int>, v: Vec2)
    requires EndsAt(mid, before, w, v) && ends == mid + [Unset]
    ensures Ended(ends, before, w, v)
  {
    assert ends[..|before|] == mid;
  }

  /** Arc a took edge x (line 333). */
  ghost predicate Reassigned(arcEdges: seq<int>, before: seq<int>, a: int, x: int)
  {
    0 <= a < |before| && arcEdges == before[a := x]
  }

  /** No arc of the run [lo, hi) has a pending event. */
  ghost predicate RunCleared(records: seq<FortuneEventArc>, q: seq<int>, lo: int, hi: int)
  {
    forall p :: lo <= p < hi && 0 <= p < |q| ==> !Exists(RecordAt(records, q[p]))
  }

  /** New records for the survivors prev and next only keep the run
      cleared. */
  lemma RunClearedKeep(records: seq<FortuneEventArc>, records': seq<FortuneEventArc>, q: seq<int>, pos: seq<int>,
                       lo: int, hi: int)
    requires Placed(q, pos) && 1 <= lo <= hi < |q| && RunCleared(records, q, lo, hi)
    requires |records'| == |records|
    requires forall a :: 0 <= a < |records| && a != q[lo - 1] && a != q[hi] ==> records'[a] == records[a]
    ensures RunCleared(records', q, lo, hi)
  {
    forall p | lo <= p < hi
      ensures !Exists(RecordAt(records', q[p]))
    {
      assert pos[q[p]] == p && pos[q[lo - 1]] == lo - 1 && pos[q[hi]] == hi;
    }
  }
}
