/** The bookkeeping behind the lazy deletion of circle events in
    Assets/Voronoi/Handlers/BeachLine.cs and the event loop of
    Assets/Voronoi/Jobs/FortunesWithConvexHull.cs, stated over values: the
    record each arc keeps of its pending circle event, the in-order sequence
    of arcs, the queued events, the ids in `deleted` and the id counter. */
module BeachTrack {
  import opened Events
  import opened TreeState
  import opened Sites

  /** Arc m lies on the beach line q with an arc on each side of it. */
  ghost predicate Interior(q: seq<int>, m: int)
  {
    m in q && q[0] != m && q[|q| - 1] != m
  }

  /** Arc a has a record of a pending circle event. The quantifiers of the
      invariant below fire only on this and on Queued, so that they stay
      out of the way of unrelated facts about the same sequences. */
  ghost predicate Recorded(records: seq<FortuneEventArc>, a: int)
  {
    0 <= a < |records| && Exists(records[a])
  }

  /** Event e is in the queue. */
  ghost predicate Queued(queued: multiset<FortuneEvent>, e: FortuneEvent)
  {
    e in queued
  }

  /** No queued event carries the id. */
  ghost predicate NoneQueued(queued: multiset<FortuneEvent>, id: int)
  {
    forall e {:trigger Queued(queued, e)} :: Queued(queued, e) ==> e.id != id
  }

  /** What holds of one queued event: it is queued once with an issued id;
      a site event names a site of the chunk; a circle event not in
      `deleted` is the one its arc records. */
  ghost predicate QueuedOk(records: seq<FortuneEventArc>, queued: multiset<FortuneEvent>, deleted: set<int>,
                           nextId: int, sites: int, e: FortuneEvent)
  {
    queued[e] == 1 && 0 <= e.id < nextId &&
    (e.isSiteEvent ==> 0 <= e.site < sites) &&
    (!e.isSiteEvent && e.id !in deleted ==> e.id > 0 && 0 <= e.node < |records| && records[e.node] == FromEvent(e))
  }

  /** The invariant of the lazy deletion:
      - an arc records an event only while it has both neighbours, and the
        recorded ids are distinct, issued and not in `deleted`;
      - every queued event is QueuedOk, and the queued ids are distinct;
      - every id in `deleted` has been issued. */
  ghost predicate Tracked(records: seq<FortuneEventArc>, line: seq<int>, queued: multiset<FortuneEvent>,
                          deleted: set<int>, nextId: int, sites: int)
  {
    (forall a {:trigger Recorded(records, a)} :: Recorded(records, a) ==>
       Interior(line, a) && records[a].id !in deleted && records[a].id < nextId) &&
    (forall a, b {:trigger Recorded(records, a), Recorded(records, b)} ::
       Recorded(records, a) && Recorded(records, b) && records[a].id == records[b].id ==> a == b) &&
    (forall e {:trigger Queued(queued, e)} :: Queued(queued, e) ==> QueuedOk(records, queued, deleted, nextId, sites, e)) &&
    (forall e, f {:trigger Queued(queued, e), Queued(queued, f)} ::
       Queued(queued, e) && Queued(queued, f) && e.id == f.id ==> e == f) &&
    (forall d :: d in deleted ==> d < nextId)
  }

  /** The state before the first event: only site events, with distinct
      issued ids, are queued. */
  lemma TrackedStart(queued: multiset<FortuneEvent>, nextId: int, sites: int)
    requires forall e :: e in queued ==> e.isSiteEvent && 0 <= e.site < sites
    requires forall e :: e in queued ==> queued[e] == 1 && 0 <= e.id < nextId
    requires forall e, f :: e in queued && f in queued && e.id == f.id ==> e == f
    ensures Tracked([], [], queued, {}, nextId, sites)
  {
    forall e | Queued(queued, e)
      ensures QueuedOk([], queued, {}, nextId, sites, e)
    {
    }
  }

  /** The site events that lines 57-63 of FortunesWithConvexHull.cs queue
      for the first k sites, in order: site i gets the event with id i. */
  function SiteEventsOf(sites: seq<VSite>, k: nat): (r: seq<FortuneEvent>)
    requires k <= |sites|
    ensures |r| == k
  {
    if k == 0 then []
    else SiteEventsOf(sites, k - 1) + [SiteEvent(k - 1, k - 1, sites[k - 1].x, sites[k - 1].y).event]
  }

  /** Each of the first k site events is queued once, is a site event of a
      site of the chunk, and has an id below k that no other one shares. */
  lemma {:induction false} SiteEventsOnce(sites: seq<VSite>, k: nat)
    requires k <= |sites|
    ensures var m := multiset(SiteEventsOf(sites, k));
      forall e :: e in m ==> m[e] == 1 && 0 <= e.id < k && e.isSiteEvent && 0 <= e.site < |sites|
    ensures var m := multiset(SiteEventsOf(sites, k));
      forall e, f :: e in m && f in m && e.id == f.id ==> e == f
  {
    if k > 0 {
      SiteEventsOnce(sites, k - 1);
      var prior := SiteEventsOf(sites, k - 1);
      var x := SiteEvent(k - 1, k - 1, sites[k - 1].x, sites[k - 1].y).event;
      assert SiteEventsOf(sites, k) == prior + [x];
      assert x !in multiset(prior);
      assert x.site <= k - 1;
    }
  }

  /** The queue the seeding leaves is a correct start of the lazy deletion. */
  lemma SeededTracked(sites: seq<VSite>)
    ensures Tracked([], [], multiset(SiteEventsOf(sites, |sites|)), {}, |sites|, |sites|)
  {
    SiteEventsOnce(sites, |sites|);
    TrackedStart(multiset(SiteEventsOf(sites, |sites|)), |sites|, |sites|);
  }

  /** The first part of Tracked alone: every arc with a record is interior. */
  ghost predicate RecordsInterior(records: seq<FortuneEventArc>, line: seq<int>)
  {
    forall a {:trigger Recorded(records, a)} :: Recorded(records, a) ==> Interior(line, a)
  }

  /** A new arc starts with no record. */
  lemma TrackedGrow(r: seq<FortuneEventArc>, q: seq<int>, Q: multiset<FortuneEvent>, D: set<int>, n: int, ns: int)
    requires Tracked(r, q, Q, D, n, ns)
    ensures Tracked(r + [NullArc], q, Q, D, n, ns)
  {
    var r' := r + [NullArc];
    forall a | Recorded(r', a)
      ensures Interior(q, a) && r'[a].id !in D && r'[a].id < n
    {
      assert Recorded(r, a);
    }
    forall a, b | Recorded(r', a) && Recorded(r', b) && r'[a].id == r'[b].id
      ensures a == b
    {
      assert Recorded(r, a) && Recorded(r, b);
    }
    forall e | Queued(Q, e)
      ensures QueuedOk(r', Q, D, n, ns, e)
    {
      assert QueuedOk(r, Q, D, n, ns, e);
    }
  }

  /** Inserting a new arc x into the beach line keeps every interior arc
      interior. */
  lemma InsertKeepsInterior(q: seq<int>, k: int, x: int, m: int)
    requires 0 <= k <= |q| && x !in q && Interior(q, m)
    ensures Interior(q[..k] + [x] + q[k..], m)
  {
    var q' := q[..k] + [x] + q[k..];
    assert m in q[..k] || m in q[k..] by {
      assert q == q[..k] + q[k..];
    }
    if k > 0 {
      assert q'[0] == q[0];
    }
    if k < |q| {
      assert q'[|q'| - 1] == q[|q| - 1];
    }
  }

  lemma TrackedInsert(r: seq<FortuneEventArc>, q: seq<int>, Q: multiset<FortuneEvent>, D: set<int>, n: int, ns: int,
                      k: int, x: int)
    requires Tracked(r, q, Q, D, n, ns) && 0 <= k <= |q| && x !in q
    ensures Tracked(r, q[..k] + [x] + q[k..], Q, D, n, ns)
  {
    forall a | Recorded(r, a)
      ensures Interior(q[..k] + [x] + q[k..], a)
    {
      InsertKeepsInterior(q, k, x, a);
    }
  }

  /** Lines 122-130 and 188-200: an arc's pending event is put in `deleted`
      (it was not there yet, so NativeHashMap.Add cannot find the key
      present) and the record is cleared. */
  lemma TrackedCancel(r: seq<FortuneEventArc>, q: seq<int>, Q: multiset<FortuneEvent>, D: set<int>, n: int, ns: int,
                      a: int)
    requires Tracked(r, q, Q, D, n, ns) && 0 <= a < |r| && Exists(r[a])
    ensures r[a].id !in D
    ensures Tracked(r[a := NullArc], q, Q, D + {r[a].id}, n, ns)
  {
    assert Recorded(r, a);
    var r' := r[a := NullArc];
    forall b | Recorded(r', b)
      ensures Interior(q, b) && r'[b].id !in D + {r[a].id} && r'[b].id < n
    {
      assert Recorded(r, b);
    }
    forall b, c | Recorded(r', b) && Recorded(r', c) && r'[b].id == r'[c].id
      ensures b == c
    {
      assert Recorded(r, b) && Recorded(r, c);
    }
    forall e | Queued(Q, e)
      ensures QueuedOk(r', Q, D + {r[a].id}, n, ns, e)
    {
      assert QueuedOk(r, Q, D, n, ns, e);
    }
  }

  /** Line 315: the record of the arc whose circle event is being handled is
      cleared. No queued event carries that id any more, so nothing else
      pointed at the record. */
  lemma TrackedClearHandled(r: seq<FortuneEventArc>, q: seq<int>, Q: multiset<FortuneEvent>, D: set<int>, n: int, ns: int,
                            a: int)
    requires Tracked(r, q, Q, D, n, ns) && 0 <= a < |r| && Exists(r[a])
    requires NoneQueued(Q, r[a].id)
    ensures Tracked(r[a := NullArc], q, Q, D, n, ns)
  {
    var r' := r[a := NullArc];
    forall b | Recorded(r', b)
      ensures Interior(q, b) && r'[b].id !in D && r'[b].id < n
    {
      assert Recorded(r, b);
    }
    forall b, c | Recorded(r', b) && Recorded(r', c) && r'[b].id == r'[c].id
      ensures b == c
    {
      assert Recorded(r, b) && Recorded(r, c);
    }
    forall e | Queued(Q, e)
      ensures QueuedOk(r', Q, D, n, ns, e)
    {
      assert QueuedOk(r, Q, D, n, ns, e);
    }
  }

  /** Lines 455-461: an interior arc without a record gets a new circle event
      with the next id; the queue gains it. */
  lemma TrackedSchedule(r: seq<FortuneEventArc>, q: seq<int>, Q: multiset<FortuneEvent>, D: set<int>, n: int, ns: int,
                        a: int, e: FortuneEvent)
    requires Tracked(r, q, Q, D, n, ns) && 0 <= a < |r| && !Exists(r[a]) && Interior(q, a)
    requires e.id == n && n > 0 && !e.isSiteEvent && e.node == a
    ensures Tracked(r[a := FromEvent(e)], q, Q + multiset{e}, D, n + 1, ns)
  {
    var r' := r[a := FromEvent(e)];
    var Q' := Q + multiset{e};
    assert n !in D;
    forall f | Queued(Q, f)
      ensures f.id < n
    {
      assert QueuedOk(r, Q, D, n, ns, f);
    }
    assert !Queued(Q, e);
    forall b | Recorded(r', b)
      ensures Interior(q, b) && r'[b].id !in D && r'[b].id < n + 1
    {
      if b != a {
        assert Recorded(r, b);
      }
    }
    forall b, c | Recorded(r', b) && Recorded(r', c) && r'[b].id == r'[c].id
      ensures b == c
    {
      if b != a && c != a {
        assert Recorded(r, b) && Recorded(r, c);
      } else if b != a {
        assert Recorded(r, b);
      } else if c != a {
        assert Recorded(r, c);
      }
    }
    forall f | Queued(Q', f)
      ensures QueuedOk(r', Q', D, n + 1, ns, f)
    {
      if f != e {
        assert Queued(Q, f) && QueuedOk(r, Q, D, n, ns, f);
        if !f.isSiteEvent && f.id !in D {
          assert Recorded(r, f.node);
        }
      }
    }
    forall f, g | Queued(Q', f) && Queued(Q', g) && f.id == g.id
      ensures f == g
    {
      assert f != e ==> Queued(Q, f);
      assert g != e ==> Queued(Q, g);
    }
  }

  /** A change of the beach line that keeps every arc with a record
      interior. */
  lemma TrackedLine(r: seq<FortuneEventArc>, q: seq<int>, q': seq<int>, Q: multiset<FortuneEvent>, D: set<int>,
                    n: int, ns: int)
    requires Tracked(r, q, Q, D, n, ns)
    requires forall a {:trigger Recorded(r, a)} :: Recorded(r, a) && Interior(q, a) ==> Interior(q', a)
    ensures Tracked(r, q', Q, D, n, ns)
  {
  }

  /** EventPop (line 77): the popped event leaves the queue; it was the only
      queued event with its id. */
  lemma TrackedPop(r: seq<FortuneEventArc>, q: seq<int>, Q: multiset<FortuneEvent>, D: set<int>, n: int, ns: int,
                   e: FortuneEvent)
    requires Tracked(r, q, Q, D, n, ns) && e in Q
    ensures Tracked(r, q, Q - multiset{e}, D, n, ns)
    ensures NoneQueued(Q - multiset{e}, e.id)
    ensures 0 <= e.id < n
    ensures e.isSiteEvent ==> 0 <= e.site < ns
    ensures !e.isSiteEvent && e.id !in D ==> e.id > 0 && 0 <= e.node < |r| && r[e.node] == FromEvent(e)
  {
    var Q' := Q - multiset{e};
    assert Queued(Q, e) && QueuedOk(r, Q, D, n, ns, e);
    forall f | Queued(Q', f)
      ensures f.id != e.id
    {
      assert Queued(Q, f);
    }
    forall f | Queued(Q', f)
      ensures QueuedOk(r, Q', D, n, ns, f)
    {
      assert Queued(Q, f) && QueuedOk(r, Q, D, n, ns, f);
    }
    forall f, g | Queued(Q', f) && Queued(Q', g) && f.id == g.id
      ensures f == g
    {
      assert Queued(Q, f) && Queued(Q, g);
    }
  }

  /** Line 86: a cancelled event is dropped and its id leaves `deleted`. */
  lemma TrackedDiscard(r: seq<FortuneEventArc>, q: seq<int>, Q: multiset<FortuneEvent>, D: set<int>, n: int, ns: int,
                       e: FortuneEvent)
    requires Tracked(r, q, Q, D, n, ns) && e.id in D
    requires NoneQueued(Q, e.id)
    ensures Tracked(r, q, Q, D - {e.id}, n, ns)
  {
    forall f | Queued(Q, f)
      ensures QueuedOk(r, Q, D - {e.id}, n, ns, f)
    {
      assert QueuedOk(r, Q, D, n, ns, f);
    }
  }

  // ---------------------------------------------------------------------
  // The beach line in the tree.

  /** A node is interior exactly when it has both list neighbours. */
  lemma InteriorIffNeighbours(s: State, m: int)
    requires Struct(s) && Live(s, m)
    ensures Interior(s.sq, m) <==> s.previous[m] != -1 && s.next[m] != -1
  {
    assert NodeThreaded(s, m);
    var k := s.pos[m];
    assert s.pos[s.sq[0]] == 0;
    assert s.pos[s.sq[|s.sq| - 1]] == |s.sq| - 1;
    if k > 0 {
      assert 0 <= s.sq[k - 1];
    }
    if k < |s.sq| - 1 {
      assert 0 <= s.sq[k + 1];
    }
  }

  /** The nodes in the in-order sequence are the live ones. */
  lemma InLineLive(s: State, m: int)
    requires Struct(s)
    ensures m in s.sq <==> Live(s, m)
  {
    if m in s.sq {
      var i :| 0 <= i < |s.sq| && s.sq[i] == m;
      assert s.pos[m] == i;
    }
  }

  /** What the circle check needs of node m: it and its list neighbours
      are nodes, and m is interior to the in-order sequence exactly when it
      has a neighbour on each side. */
  ghost predicate Neighboured(q: seq<int>, count: int, previous: seq<int>, next: seq<int>, m: int)
  {
    0 <= m < count && m < |previous| && m < |next| &&
    -1 <= previous[m] < count && -1 <= next[m] < count &&
    (Interior(q, m) <==> previous[m] != -1 && next[m] != -1)
  }

  /** A node of the in-order sequence is live and Neighboured. */
  lemma LiveNeighboured(s: State, m: int)
    requires Struct(s) && m in s.sq
    ensures Live(s, m) && Neighboured(s.sq, s.count, s.previous, s.next, m)
  {
    InLineLive(s, m);
    LinksLive(s, m);
    InteriorIffNeighbours(s, m);
    if s.previous[m] != -1 {
      LinksLive(s, s.previous[m]);
    }
    if s.next[m] != -1 {
      LinksLive(s, s.next[m]);
    }
  }

  /** pos gives the place of a node of the in-order sequence. */
  lemma PlaceOf(s: State, i: int)
    requires Struct(s) && 0 <= i < |s.sq|
    ensures Live(s, s.sq[i]) && s.pos[s.sq[i]] == i
  {
    assert s.pos[s.sq[i]] == i;
  }

  /** An interior node has live neighbours at the places next to it. */
  lemma InteriorNeighbours(s: State, m: int)
    requires Struct(s) && Interior(s.sq, m)
    ensures Live(s, m) && 0 < s.pos[m] < |s.sq| - 1
    ensures s.previous[m] == s.sq[s.pos[m] - 1] && s.next[m] == s.sq[s.pos[m] + 1]
    ensures Live(s, s.previous[m]) && Live(s, s.next[m])
  {
    InLineLive(s, m);
    assert NodeThreaded(s, m);
    var k := s.pos[m];
    assert s.pos[s.sq[0]] == 0;
    assert s.pos[s.sq[|s.sq| - 1]] == |s.sq| - 1;
    assert s.pos[s.sq[k - 1]] == k - 1 && s.pos[s.sq[k + 1]] == k + 1;
  }

  // ---------------------------------------------------------------------
  // Removing a run of arcs from the beach line (lines 332-335): the line is
  // always q with the places [lo, hi) taken out, and the run grows by one
  // place on either side at each removal.

  /** The next arc to the left of the run sits at place lo - 1, and removing
      it widens the run. */
  lemma RunGrowLeft(q: seq<int>, lo: int, hi: int)
    requires 1 <= lo <= hi <= |q|
    ensures var l := q[..lo] + q[hi..];
      l[lo - 1] == q[lo - 1] && l[..lo - 1] + l[lo..] == q[..lo - 1] + q[hi..]
  {
    var l := q[..lo] + q[hi..];
    assert l[..lo - 1] == q[..lo - 1];
    assert l[lo..] == q[hi..];
  }

  /** The next arc to the right of the run sits at place lo, and removing it
      widens the run. */
  lemma RunGrowRight(q: seq<int>, lo: int, hi: int)
    requires 0 <= lo <= hi < |q|
    ensures var l := q[..lo] + q[hi..];
      l[lo] == q[hi] && l[..lo] + l[lo + 1..] == q[..lo] + q[hi + 1..]
  {
    var l := q[..lo] + q[hi..];
    assert l[..lo] == q[..lo];
    assert l[lo + 1..] == q[hi + 1..];
  }

  /** Removing a run strictly inside the beach line keeps its two ends, so
      every interior arc outside the run stays interior. */
  lemma RunKeepsInterior(q: seq<int>, lo: int, hi: int, m: int)
    requires 1 <= lo <= hi <= |q| - 1 && Interior(q, m) && m !in q[lo..hi]
    ensures Interior(q[..lo] + q[hi..], m)
  {
    var q' := q[..lo] + q[hi..];
    assert q == q[..lo] + q[lo..hi] + q[hi..];
    assert q'[0] == q[0];
    assert q'[|q'| - 1] == q[|q| - 1];
  }

  /** Taking an arc without a record out of the inside of the beach line
      keeps the lazy deletion consistent. */
  lemma TrackedDrop(r: seq<FortuneEventArc>, q: seq<int>, Q: multiset<FortuneEvent>, D: set<int>, n: int, ns: int,
                    p: int)
    requires Tracked(r, q, Q, D, n, ns) && 1 <= p < |q| - 1 && !Recorded(r, q[p])
    ensures Tracked(r, q[..p] + q[p + 1..], Q, D, n, ns)
  {
    forall a {:trigger Recorded(r, a)} | Recorded(r, a) && Interior(q, a)
      ensures Interior(q[..p] + q[p + 1..], a)
    {
      RunKeepsInterior(q, p, p + 1, a);
    }
    TrackedLine(r, q, q[..p] + q[p + 1..], Q, D, n, ns);
  }

  /** The links of a live node: its list neighbours are live and point
      back at it, and its children are live. */
  lemma LinksLive(s: State, m: int)
    requires Struct(s) && Live(s, m)
    ensures 0 <= m < s.count && NodeThreaded(s, m)
    ensures s.previous[m] == -1 || (Live(s, s.previous[m]) && s.next[s.previous[m]] == m)
    ensures s.next[m] == -1 || (Live(s, s.next[m]) && s.previous[s.next[m]] == m)
    ensures s.left[m] == -1 || Live(s, s.left[m])
    ensures s.right[m] == -1 || Live(s, s.right[m])
    ensures s.previous[m] != m && s.next[m] != m
  {
    assert NodeThreaded(s, m);
    assert NodeLinked(s, m);
    var k := s.pos[m];
    if k > 0 {
      assert s.pos[s.sq[k - 1]] == k - 1;
      assert NodeThreaded(s, s.sq[k - 1]);
    }
    if k < |s.sq| - 1 {
      assert s.pos[s.sq[k + 1]] == k + 1;
      assert NodeThreaded(s, s.sq[k + 1]);
    }
  }

  /** The list links along the beach line q: the arc at each place is a
      node, and its list neighbours are the arcs at the places beside it. */
  ghost predicate LinedUp(q: seq<int>, count: int, previous: seq<int>, next: seq<int>)
  {
    (forall i :: 0 <= i < |q| ==> 0 <= q[i] < count && q[i] < |previous| && q[i] < |next|) &&
    (forall i :: 0 < i < |q| ==> previous[q[i]] == q[i - 1]) &&
    (forall i :: 0 <= i < |q| - 1 ==> next[q[i]] == q[i + 1])
  }

  lemma LinedUpOf(s: State)
    requires Struct(s)
    ensures LinedUp(s.sq, s.count, s.previous, s.next)
  {
    forall i | 0 <= i < |s.sq|
      ensures 0 <= s.sq[i] < s.count && s.sq[i] < |s.previous| && s.sq[i] < |s.next|
      ensures i > 0 ==> s.previous[s.sq[i]] == s.sq[i - 1]
      ensures i < |s.sq| - 1 ==> s.next[s.sq[i]] == s.sq[i + 1]
    {
      PlaceOf(s, i);
      assert NodeThreaded(s, s.sq[i]);
    }
  }

  /** Slots at or past the node count are not on the beach line. */
  lemma NotInLine(s: State, m: int)
    requires Struct(s) && s.count <= m
    ensures m !in s.sq
  {
    if m in s.sq {
      InLineLive(s, m);
      LinksLive(s, m);
    }
  }
}
