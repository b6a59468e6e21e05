/** Values behind RemoveBeachArc (Assets/Voronoi/Handlers/BeachLine.cs,
    lines 241-350): which neighbours collapse with the handled circle event,
    the run of places they form on the beach line, and the edges, records
    and ids the removal touches. Places are indexes into the in-order
    sequence of arcs before the removal; k is the place of the handled
    arc, [lo, hi) the run that disappears, lo - 1 and hi the survivors. */
module BeachRemove {
  import opened VMath
  import opened VGeometry
  import opened Events

  /** The test of lines 276-278 and 287-289 as written: the neighbour's
      record holds the top of its circle (its event's x and y), which is
      compared with the x and the centre height of the handled event. */
  predicate CollapsesAsWritten(record: FortuneEventArc, e: FortuneEvent)
  {
    Exists(record) && ApproxEqual(e.x - record.x, 0.0) && ApproxEqual(e.yCenter - record.y, 0.0)
  }

  /** The test as intended: the neighbour's pending event is at the point
      of the handled one, so it is the same circle closing. Both sides
      compare tops of circles. */
  predicate Collapses(record: FortuneEventArc, e: FortuneEvent)
  {
    Exists(record) && ApproxEqual(e.x - record.x, 0.0) && ApproxEqual(e.y - record.y, 0.0)
  }

  /** Two circle events of one circle whose radius exceeds Epsilon: the
      test as written never lets the second collapse with the first. */
  lemma SameCircleMissedAsWritten(e: FortuneEvent, f: FortuneEvent)
    requires f.id > 0 && f.x == e.x && f.y == e.y && f.yCenter == e.yCenter
    requires e.y - e.yCenter > Epsilon
    ensures Exists(FromEvent(f)) && !CollapsesAsWritten(FromEvent(f), e)
  {
  }

  /** A concrete pair: an event at the top (0, 2) of the unit circle round
      (0, 1), and another event of the same circle. */
  lemma SameCircleWitness()
    ensures var e := FortuneEvent(7, 0.0, 2.0, 0, 1.0, 3, false);
      var f := FortuneEvent(8, 0.0, 2.0, 0, 1.0, 4, false);
      !CollapsesAsWritten(FromEvent(f), e) && Collapses(FromEvent(f), e)
  {
  }

  /** With the intended test, a pending event of the same circle always
      collapses, and one at another point never does. */
  lemma SameCircleCollapses(e: FortuneEvent, f: FortuneEvent)
    ensures f.id > 0 && f.x == e.x && f.y == e.y ==> Collapses(FromEvent(f), e)
    ensures Collapses(FromEvent(f), e) ==>
      f.id > 0 && -Epsilon <= e.x - f.x <= Epsilon && -Epsilon <= e.y - f.y <= Epsilon
  {
  }

  /** The record of arc a, the null record for a slot that is not an arc. */
  function RecordAt(records: seq<FortuneEventArc>, a: int): (r: FortuneEventArc)
    ensures 0 <= a < |records| ==> r == records[a]
    ensures Exists(r) ==> 0 <= a < |records|
  {
    if 0 <= a < |records| then records[a] else NullArc
  }

  /** The look-left loop (lines 273-283) from place i: the first place at
      or left of i whose arc does not collapse, or -1 past the left end;
      every place between that one and i collapses. */
  function LeftStop(q: seq<int>, records: seq<FortuneEventArc>, e: FortuneEvent, i: int): (j: int)
    requires -1 <= i < |q|
    ensures -1 <= j <= i
    ensures j >= 0 ==> !Collapses(RecordAt(records, q[j]), e)
    ensures forall p :: j < p <= i ==> Collapses(RecordAt(records, q[p]), e)
    decreases i + 1
  {
    if i < 0 then -1
    else if Collapses(RecordAt(records, q[i]), e) then LeftStop(q, records, e, i - 1)
    else i
  }

  /** The look-right loop (lines 285-294) from place i: the first place at
      or right of i whose arc does not collapse, or |q| past the right end;
      every place from i up to it collapses. */
  function RightStop(q: seq<int>, records: seq<FortuneEventArc>, e: FortuneEvent, i: int): (j: int)
    requires 0 <= i <= |q|
    ensures i <= j <= |q|
    ensures j < |q| ==> !Collapses(RecordAt(records, q[j]), e)
    ensures forall p :: i <= p < j ==> Collapses(RecordAt(records, q[p]), e)
    decreases |q| - i
  {
    if i == |q| then |q|
    else if Collapses(RecordAt(records, q[i]), e) then RightStop(q, records, e, i + 1)
    else i
  }

  /** The look-left loop as written: the same walk with the test that
      compares the neighbour's event top with the handled circle's centre. */
  function LeftStopAsWritten(q: seq<int>, records: seq<FortuneEventArc>, e: FortuneEvent, i: int): (j: int)
    requires -1 <= i < |q|
    ensures -1 <= j <= i
    ensures j >= 0 ==> !CollapsesAsWritten(RecordAt(records, q[j]), e)
    decreases i + 1
  {
    if i < 0 then -1
    else if CollapsesAsWritten(RecordAt(records, q[i]), e) then LeftStopAsWritten(q, records, e, i - 1)
    else i
  }

  /** The look-right loop as written. */
  function RightStopAsWritten(q: seq<int>, records: seq<FortuneEventArc>, e: FortuneEvent, i: int): (j: int)
    requires 0 <= i <= |q|
    ensures i <= j <= |q|
    ensures j < |q| ==> !CollapsesAsWritten(RecordAt(records, q[j]), e)
    decreases |q| - i
  {
    if i == |q| then |q|
    else if CollapsesAsWritten(RecordAt(records, q[i]), e) then RightStopAsWritten(q, records, e, i + 1)
    else i
  }

  /** When every pending event lies more than the tolerance above the
      handled circle's centre, as each event of a circle of radius above
      the tolerance does, the walks as written stop at once on both sides:
      no neighbour is ever collected with the arc. */
  lemma AsWrittenWalksStopAtOnce(q: seq<int>, records: seq<FortuneEventArc>, e: FortuneEvent, k: int)
    requires 0 <= k < |q|
    requires forall r :: r in records && Exists(r) ==> r.y - e.yCenter > Epsilon
    ensures LeftStopAsWritten(q, records, e, k - 1) == k - 1
    ensures RightStopAsWritten(q, records, e, k + 1) == k + 1
  {
    if k >= 1 {
      var r := RecordAt(records, q[k - 1]);
      assert Exists(r) ==> r in records;
    }
    if k + 1 < |q| {
      var r := RecordAt(records, q[k + 1]);
      assert Exists(r) ==> r in records;
    }
  }

  /** Three arcs 0, 1, 2 with arc 2 vanishing at the top (0, 2) of the unit
      circle round (0, 1), and arc 1 holding another event of that circle:
      the intended walk collects arc 1 with arc 2, the walk as written
      leaves it on the beach line. */
  lemma WalkWitness()
    ensures var e := FortuneEvent(7, 0.0, 2.0, 0, 1.0, 3, false);
      var records := [NullArc, FortuneEventArc(8, 0.0, 2.0), NullArc];
      LeftStop([0, 1, 2], records, e, 1) == 0 && LeftStopAsWritten([0, 1, 2], records, e, 1) == 1
  {
    var e := FortuneEvent(7, 0.0, 2.0, 0, 1.0, 3, false);
    var records := [NullArc, FortuneEventArc(8, 0.0, 2.0), NullArc];
    assert RecordAt(records, 1) == FortuneEventArc(8, 0.0, 2.0);
    assert RecordAt(records, 0) == NullArc;
  }

  /** The place of the t-th entry of toBeRemoved: the left run from right
      to left, then the right run from left to right. */
  function RunPlace(lo: int, k: int, t: int): (p: int)
    ensures 0 <= t < k - lo ==> lo <= p < k
    ensures k - lo <= t ==> p == t + 1 + lo && k < p
  {
    if t < k - lo then k - 1 - t else t + 1 + lo
  }

  /** The places lo to hi, both included. */
  function Span(lo: int, hi: int): (s: set<int>)
    ensures forall p :: p in s <==> lo <= p <= hi
    decreases hi - lo
  {
    if hi < lo then {} else Span(lo, hi - 1) + {hi}
  }

  /** A set with exactly the places lo to hi is their Span. */
  lemma SameSpan(s: set<int>, lo: int, hi: int)
    requires forall p :: p in s <==> lo <= p <= hi
    ensures s == Span(lo, hi)
  {
  }

  /** The places whose edges the loop of lines 305-313 has ended after t
      entries: each entry's own place and the place right of it. */
  function EndedPlaces(lo: int, k: int, t: nat): (s: set<int>)
    ensures forall x :: x in s ==> lo <= x && (x <= k || x <= t + lo + 1)
  {
    if t == 0 then {} else EndedPlaces(lo, k, t - 1) + {RunPlace(lo, k, t - 1), RunPlace(lo, k, t - 1) + 1}
  }

  /** The places whose records that loop has cleared after t entries. */
  function ClearedPlaces(lo: int, k: int, t: nat): (c: set<int>)
    ensures forall x :: x in c ==> lo <= x && x != k && (x < k ==> k - t <= x) && (k < x ==> x <= t + lo)
  {
    if t == 0 then {} else ClearedPlaces(lo, k, t - 1) + {RunPlace(lo, k, t - 1)}
  }

  lemma {:induction false} EndedLeft(lo: int, k: int, t: nat)
    requires t <= k - lo
    ensures {k} + EndedPlaces(lo, k, t) == Span(k - t, k)
  {
    if t > 0 {
      EndedLeft(lo, k, t - 1);
      assert RunPlace(lo, k, t - 1) == k - t;
      forall p ensures p in {k} + EndedPlaces(lo, k, t) <==> k - t <= p <= k {
        assert p in Span(k - t + 1, k) <==> k - t + 1 <= p <= k;
      }
      SameSpan({k} + EndedPlaces(lo, k, t), k - t, k);
    }
  }

  lemma {:induction false} EndedRight(lo: int, k: int, u: nat)
    requires lo <= k
    ensures {k, k + u + 1} + EndedPlaces(lo, k, k - lo + u) == Span(lo, k + u + 1)
  {
    if u == 0 {
      EndedLeft(lo, k, k - lo);
      var s := {k, k + 1} + EndedPlaces(lo, k, k - lo);
      forall p ensures p in s <==> lo <= p <= k + 1 {
        assert p in Span(lo, k) <==> lo <= p <= k;
      }
      SameSpan({k, k + u + 1} + EndedPlaces(lo, k, k - lo + u), lo, k + u + 1);
    } else {
      EndedRight(lo, k, u - 1);
      assert RunPlace(lo, k, k - lo + u - 1) == k + u;
      var s := {k, k + u + 1} + EndedPlaces(lo, k, k - lo + u);
      forall p ensures p in s <==> lo <= p <= k + u + 1 {
        assert p in Span(lo, k + u) <==> lo <= p <= k + u;
      }
      SameSpan({k, k + u + 1} + EndedPlaces(lo, k, k - lo + u), lo, k + u + 1);
    }
  }

  /** Together with the handled arc's own edge and the edge of the arc at
      hi (lines 299-300), the loop ends the edges at every place from lo to
      hi. */
  lemma EndedAll(lo: int, k: int, hi: int)
    requires lo <= k < hi
    ensures {k, hi} + EndedPlaces(lo, k, hi - lo - 1) == Span(lo, hi)
  {
    EndedRight(lo, k, hi - k - 1);
  }

  lemma {:induction false} ClearedLeft(lo: int, k: int, t: nat)
    requires t <= k - lo
    ensures {k} + ClearedPlaces(lo, k, t) == Span(k - t, k)
  {
    if t > 0 {
      ClearedLeft(lo, k, t - 1);
      assert RunPlace(lo, k, t - 1) == k - t;
      forall p ensures p in {k} + ClearedPlaces(lo, k, t) <==> k - t <= p <= k {
        assert p in Span(k - t + 1, k) <==> k - t + 1 <= p <= k;
      }
      SameSpan({k} + ClearedPlaces(lo, k, t), k - t, k);
    }
  }

  lemma {:induction false} ClearedRight(lo: int, k: int, u: nat)
    requires lo <= k
    ensures {k} + ClearedPlaces(lo, k, k - lo + u) == Span(lo, k + u)
  {
    if u == 0 {
      ClearedLeft(lo, k, k - lo);
    } else {
      ClearedRight(lo, k, u - 1);
      assert RunPlace(lo, k, k - lo + u - 1) == k + u;
      var s := {k} + ClearedPlaces(lo, k, k - lo + u);
      forall p ensures p in s <==> lo <= p <= k + u {
        assert p in Span(lo, k + u - 1) <==> lo <= p <= k + u - 1;
      }
      SameSpan({k} + ClearedPlaces(lo, k, k - lo + u), lo, k + u);
    }
  }

  /** With the handled arc's own record (line 301), the loop clears the
      record at every place of the run. */
  lemma ClearedAll(lo: int, k: int, hi: int)
    requires lo <= k < hi
    ensures {k} + ClearedPlaces(lo, k, hi - lo - 1) == Span(lo, hi - 1)
  {
    ClearedRight(lo, k, hi - k - 1);
  }

  /** The places the loop clears, with both survivors: every place from
      lo - 1 to hi, and the ones whose ids go into `deleted`: all of those
      but k. */
  lemma Survivors(lo: int, k: int, hi: int)
    requires lo <= k < hi
    ensures Span(lo, hi - 1) + {lo - 1} + {hi} == Span(lo - 1, hi)
    ensures ClearedPlaces(lo, k, hi - lo - 1) + {lo - 1} + {hi} == Span(lo - 1, hi) - {k}
  {
    ClearedAll(lo, k, hi);
    var s := Span(lo, hi - 1) + {lo - 1} + {hi};
    SameSpan(s, lo - 1, hi);
    var c := ClearedPlaces(lo, k, hi - lo - 1);
    var d := c + {lo - 1} + {hi};
    forall x ensures x in d <==> x in Span(lo - 1, hi) - {k} {
      assert x in {k} + c <==> lo <= x <= hi - 1;
    }
  }

  /** The arcs at a set of places. */
  function ArcsAt(q: seq<int>, places: set<int>): (arcs: set<int>)
    ensures forall p :: p in places && 0 <= p < |q| ==> q[p] in arcs
  {
    set p | p in places && 0 <= p < |q| :: q[p]
  }

  /** The edges of the arcs at a set of places, leaving out arcs without
      one. */
  function EdgesAt(arcEdges: seq<int>, q: seq<int>, places: set<int>): (w: set<int>)
    ensures forall p :: p in places && 0 <= p < |q| && 0 <= q[p] < |arcEdges| ==> arcEdges[q[p]] in w
  {
    set p | p in places && 0 <= p < |q| && 0 <= q[p] < |arcEdges| :: arcEdges[q[p]]
  }

  /** The ids of the pending events of a set of arcs. */
  function IdsOf(records: seq<FortuneEventArc>, arcs: set<int>): (ids: set<int>)
    ensures forall a :: a in arcs && 0 <= a < |records| && Exists(records[a]) ==> records[a].id in ids
  {
    set a | a in arcs && 0 <= a < |records| && Exists(records[a]) :: records[a].id
  }

  /** ends is before with every edge of w ending at v. */
  ghost predicate EndsAt(ends: seq<Vec2>, before: seq<Vec2>, w: set<int>, v: Vec2)
  {
    |ends| == |before| && forall i :: 0 <= i < |before| ==> ends[i] == if i in w then v else before[i]
  }

  /** records is before with the pending events of the arcs of x
      cleared. */
  ghost predicate ClearedAt(records: seq<FortuneEventArc>, before: seq<FortuneEventArc>, x: set<int>)
  {
    |records| == |before| &&
    forall a :: 0 <= a < |before| ==> records[a] == if a in x && Exists(before[a]) then NullArc else before[a]
  }

  /** pos inverts q, as the tree's ghost place map does. */
  ghost predicate Placed(q: seq<int>, pos: seq<int>)
  {
    forall i :: 0 <= i < |q| ==> 0 <= q[i] < |pos| && pos[q[i]] == i
  }

  /** With distinct arcs, the arc at a place outside X is not an arc at X. */
  lemma NotAtOther(q: seq<int>, pos: seq<int>, x: set<int>, p: int)
    requires Placed(q, pos) && 0 <= p < |q| && p !in x
    ensures q[p] !in ArcsAt(q, x)
  {
  }

  /** More places, more edges. */
  lemma EdgesAtMono(arcEdges: seq<int>, q: seq<int>, a: set<int>, b: set<int>)
    requires a <= b
    ensures EdgesAt(arcEdges, q, a) <= EdgesAt(arcEdges, q, b)
  {
  }

  /** One more end written: the written edge joins w. */
  lemma EndsAtWrite(ends: seq<Vec2>, before: seq<Vec2>, w: set<int>, v: Vec2, i: int)
    requires EndsAt(ends, before, w, v) && 0 <= i < |ends|
    ensures EndsAt(ends[i := v], before, w + {i}, v)
  {
  }

  /** An arc of a cleared place has no pending event. */
  lemma ClearedNone(records: seq<FortuneEventArc>, before: seq<FortuneEventArc>, q: seq<int>, lo: int, hi: int,
                    p: int)
    requires ClearedAt(records, before, ArcsAt(q, Span(lo, hi)))
    requires lo <= p <= hi && 0 <= p < |q| && 0 <= q[p] < |before|
    ensures !Exists(records[q[p]])
  {
  }

  /** One more record cleared: its arc joins x. */
  lemma ClearedAtWrite(records: seq<FortuneEventArc>, before: seq<FortuneEventArc>, x: set<int>, a: int)
    requires ClearedAt(records, before, x) && 0 <= a < |records| && Exists(before[a])
    ensures ClearedAt(records[a := NullArc], before, x + {a})
  {
  }

  /** One more place whose edge is written. */
  lemma EdgesAtAdd(arcEdges: seq<int>, q: seq<int>, places: set<int>, p: int)
    requires 0 <= p < |q| && 0 <= q[p] < |arcEdges|
    ensures EdgesAt(arcEdges, q, places + {p}) == EdgesAt(arcEdges, q, places) + {arcEdges[q[p]]}
  {
  }

  /** One more place whose record is cleared. */
  lemma ArcsAtAdd(q: seq<int>, places: set<int>, p: int)
    requires 0 <= p < |q|
    ensures ArcsAt(q, places + {p}) == ArcsAt(q, places) + {q[p]}
  {
  }

  /** One more cancelled arc. */
  lemma IdsOfAdd(records: seq<FortuneEventArc>, arcs: set<int>, a: int)
    ensures IdsOf(records, arcs + {a}) ==
      IdsOf(records, arcs) + (if 0 <= a < |records| && Exists(records[a]) then {records[a].id} else {})
  {
  }

  /** The two ends written for the arc at place p and the arc after it. */
  lemma EndsPair(ends: seq<Vec2>, before: seq<Vec2>, arcEdges: seq<int>, q: seq<int>, ended: set<int>,
                 v: Vec2, p: int)
    requires EndsAt(ends, before, EdgesAt(arcEdges, q, ended), v)
    requires 0 <= p < |q| - 1 && 0 <= q[p] < |arcEdges| && 0 <= q[p + 1] < |arcEdges|
    requires 0 <= arcEdges[q[p]] < |ends| && 0 <= arcEdges[q[p + 1]] < |ends|
    ensures EndsAt(ends[arcEdges[q[p]] := v][arcEdges[q[p + 1]] := v], before,
                   EdgesAt(arcEdges, q, ended + {p, p + 1}), v)
  {
    var w := EdgesAt(arcEdges, q, ended);
    EndsAtWrite(ends, before, w, v, arcEdges[q[p]]);
    EndsAtWrite(ends[arcEdges[q[p]] := v], before, w + {arcEdges[q[p]]}, v, arcEdges[q[p + 1]]);
    EdgesAtAdd(arcEdges, q, ended, p);
    EdgesAtAdd(arcEdges, q, ended + {p}, p + 1);
    assert ended + {p} + {p + 1} == ended + {p, p + 1};
  }

  /** Cancelling the pending event of the arc at place p, not cleared
      before: its record clears and its id joins the deleted ones. */
  lemma CancelStep(records: seq<FortuneEventArc>, records0: seq<FortuneEventArc>, deleted: set<int>,
                   deleted0: set<int>, q: seq<int>, pos: seq<int>, cleared: set<int>, cancelled: set<int>, p: int)
    requires Placed(q, pos) && 0 <= p < |q| && p !in cleared
    requires ClearedAt(records, records0, ArcsAt(q, cleared))
    requires deleted == deleted0 + IdsOf(records0, ArcsAt(q, cancelled))
    requires Exists(RecordAt(records0, q[p]))
    ensures 0 <= q[p] < |records| && records[q[p]] == records0[q[p]] && Exists(records[q[p]])
    ensures ClearedAt(records[q[p] := NullArc], records0, ArcsAt(q, cleared + {p}))
    ensures deleted + {records[q[p]].id} == deleted0 + IdsOf(records0, ArcsAt(q, cancelled + {p}))
  {
    NotAtOther(q, pos, cleared, p);
    ClearedAtWrite(records, records0, ArcsAt(q, cleared), q[p]);
    ArcsAtAdd(q, cleared, p);
    ArcsAtAdd(q, cancelled, p);
    IdsOfAdd(records0, ArcsAt(q, cancelled), q[p]);
  }

  /** Entry t of the loop of lines 305-313 takes the place p right after
      the ones done: p lies in the run, is not k and is not cleared yet, and
      the sets of ended and cleared places grow by exactly its places. */
  lemma RunStep(lo: int, k: int, hi: int, t: nat)
    requires lo <= k < hi && t < hi - lo - 1
    ensures lo <= RunPlace(lo, k, t) && RunPlace(lo, k, t) + 1 <= hi
    ensures RunPlace(lo, k, t) !in {k} + ClearedPlaces(lo, k, t)
    ensures {k, hi} + EndedPlaces(lo, k, t) + {RunPlace(lo, k, t), RunPlace(lo, k, t) + 1} ==
            {k, hi} + EndedPlaces(lo, k, t + 1)
    ensures {k} + ClearedPlaces(lo, k, t) + {RunPlace(lo, k, t)} == {k} + ClearedPlaces(lo, k, t + 1)
    ensures ClearedPlaces(lo, k, t) + {RunPlace(lo, k, t)} == ClearedPlaces(lo, k, t + 1)
  {
  }

  /** Two more edges with ends, neither of them -1. */
  lemma EdgesStep(arcEdges: seq<int>, q: seq<int>, ended: set<int>, p: int)
    requires 0 <= p < |q| - 1 && 0 <= q[p] < |arcEdges| && 0 <= q[p + 1] < |arcEdges|
    requires -1 !in EdgesAt(arcEdges, q, ended) && arcEdges[q[p]] != -1 && arcEdges[q[p + 1]] != -1
    ensures -1 !in EdgesAt(arcEdges, q, ended + {p, p + 1})
  {
    EdgesAtAdd(arcEdges, q, ended, p);
    EdgesAtAdd(arcEdges, q, ended + {p}, p + 1);
    assert ended + {p} + {p + 1} == ended + {p, p + 1};
  }

  /** The edges of the arcs at p and p + 1, inside the run, are edges of
      the run. */
  lemma EdgesInRun(arcEdges: seq<int>, q: seq<int>, lo: int, hi: int, p: int)
    requires 0 <= lo <= p < hi < |q| && 0 <= q[p] < |arcEdges| && 0 <= q[p + 1] < |arcEdges|
    ensures arcEdges[q[p]] in EdgesAt(arcEdges, q, Span(lo, hi))
    ensures arcEdges[q[p + 1]] in EdgesAt(arcEdges, q, Span(lo, hi))
  {
    assert p in Span(lo, hi) && p + 1 in Span(lo, hi);
  }

  /** The state after t entries of the loop of lines 305-313 over the run
      lo..hi around the handled place k: the ends written so far, none of
      them for an arc without an edge, the records cleared so far and the
      ids deleted so far. */
  ghost predicate RunState(ends: seq<Vec2>, ends0: seq<Vec2>, arcEdges: seq<int>, q: seq<int>,
                           records: seq<FortuneEventArc>, records0: seq<FortuneEventArc>,
                           deleted: set<int>, deleted0: set<int>, lo: int, k: int, hi: int, t: nat, v: Vec2)
  {
    EndsAt(ends, ends0, EdgesAt(arcEdges, q, {k, hi} + EndedPlaces(lo, k, t)), v) &&
    -1 !in EdgesAt(arcEdges, q, {k, hi} + EndedPlaces(lo, k, t)) &&
    ClearedAt(records, records0, ArcsAt(q, {k} + ClearedPlaces(lo, k, t))) &&
    deleted == deleted0 + IdsOf(records0, ArcsAt(q, ClearedPlaces(lo, k, t)))
  }

  /** Before the loop: the handled arc's edge and the edge of the arc at hi
      are ended, its own record is cleared, and nothing is deleted. */
  lemma RunStateStart(ends: seq<Vec2>, ends0: seq<Vec2>, arcEdges: seq<int>, q: seq<int>,
                      records: seq<FortuneEventArc>, records0: seq<FortuneEventArc>,
                      deleted: set<int>, lo: int, k: int, hi: int, v: Vec2)
    requires EndsAt(ends, ends0, EdgesAt(arcEdges, q, {k, hi}), v) && -1 !in EdgesAt(arcEdges, q, {k, hi})
    requires ClearedAt(records, records0, ArcsAt(q, {k}))
    ensures RunState(ends, ends0, arcEdges, q, records, records0, deleted, deleted, lo, k, hi, 0, v)
  {
    assert {k, hi} + EndedPlaces(lo, k, 0) == {k, hi} && {k} + ClearedPlaces(lo, k, 0) == {k};
    assert ArcsAt(q, ClearedPlaces(lo, k, 0)) == {};
    assert IdsOf(records0, {}) == {};
  }

  /** Entry t: both ends written, at the edges i1 and i2 of the arc c at
      place p = RunPlace(lo, k, t) and of the arc after it, and the pending
      record of c, which exists since c collapsed, cleared with its id
      deleted. */
  lemma RunStateStep(ends: seq<Vec2>, ends0: seq<Vec2>, arcEdges: seq<int>, q: seq<int>, pos: seq<int>,
                     records: seq<FortuneEventArc>, records0: seq<FortuneEventArc>,
                     deleted: set<int>, deleted0: set<int>, lo: int, k: int, hi: int, t: nat, v: Vec2,
                     c: int, i1: int, i2: int)
    requires RunState(ends, ends0, arcEdges, q, records, records0, deleted, deleted0, lo, k, hi, t, v)
    requires Placed(q, pos) && 0 <= lo <= k < hi < |q| && t < hi - lo - 1 && c == q[RunPlace(lo, k, t)]
    requires 0 <= c < |arcEdges| && 0 <= q[RunPlace(lo, k, t) + 1] < |arcEdges|
    requires i1 == arcEdges[c] && i2 == arcEdges[q[RunPlace(lo, k, t) + 1]]
    requires 0 <= i1 < |ends| && 0 <= i2 < |ends| && Exists(RecordAt(records0, c))
    ensures 0 <= c < |records| && records[c] == records0[c]
    ensures RunState(ends[i1 := v][i2 := v], ends0, arcEdges, q, records[c := NullArc], records0,
                     deleted + {records[c].id}, deleted0, lo, k, hi, t + 1, v)
  {
    var p := RunPlace(lo, k, t);
    var ended := {k, hi} + EndedPlaces(lo, k, t);
    RunStep(lo, k, hi, t);
    EndsPair(ends, ends0, arcEdges, q, ended, v, p);
    EdgesStep(arcEdges, q, ended, p);
    CancelStep(records, records0, deleted, deleted0, q, pos, {k} + ClearedPlaces(lo, k, t),
               ClearedPlaces(lo, k, t), p);
  }

  /** Entry t fails when the arc at its place or the one after it has no
      edge: then some arc of the run has none. */
  lemma RunStateFail(arcEdges: seq<int>, q: seq<int>, lo: int, k: int, hi: int, t: nat)
    requires 0 <= lo <= k < hi < |q| && t < hi - lo - 1
    requires 0 <= q[RunPlace(lo, k, t)] < |arcEdges| && 0 <= q[RunPlace(lo, k, t) + 1] < |arcEdges|
    requires arcEdges[q[RunPlace(lo, k, t)]] == -1 || arcEdges[q[RunPlace(lo, k, t) + 1]] == -1
    ensures -1 in EdgesAt(arcEdges, q, Span(lo, hi))
  {
    RunStep(lo, k, hi, t);
    EdgesInRun(arcEdges, q, lo, hi, RunPlace(lo, k, t));
  }

  /** After the last entry: every edge of the places lo..hi is ended, every
      record of lo..hi - 1 is cleared, and the ids of the run but the
      handled arc's are deleted. */
  lemma RunStateEnd(ends: seq<Vec2>, ends0: seq<Vec2>, arcEdges: seq<int>, q: seq<int>,
                    records: seq<FortuneEventArc>, records0: seq<FortuneEventArc>,
                    deleted: set<int>, deleted0: set<int>, lo: int, k: int, hi: int, t: nat, v: Vec2)
    requires lo <= k < hi && t == hi - lo - 1
    requires RunState(ends, ends0, arcEdges, q, records, records0, deleted, deleted0, lo, k, hi, t, v)
    ensures EndsAt(ends, ends0, EdgesAt(arcEdges, q, Span(lo, hi)), v)
    ensures -1 !in EdgesAt(arcEdges, q, Span(lo, hi))
    ensures ClearedAt(records, records0, ArcsAt(q, Span(lo, hi - 1)))
    ensures deleted == deleted0 + IdsOf(records0, ArcsAt(q, ClearedPlaces(lo, k, hi - lo - 1)))
  {
    EndedAll(lo, k, hi);
    ClearedAll(lo, k, hi);
  }

  /** Lines 298-301: with both edges set, the ends of the handled arc's
      edge and of next's are written and no edge is -1. */
  lemma HandledEnds(ends: seq<Vec2>, arcEdges: seq<int>, q: seq<int>, k: int, hi: int, v: Vec2)
    requires 0 <= k < hi < |q| && 0 <= q[k] < |arcEdges| && 0 <= q[hi] < |arcEdges|
    requires 0 <= arcEdges[q[k]] < |ends| && 0 <= arcEdges[q[hi]] < |ends|
    ensures EndsAt(ends[arcEdges[q[k]] := v][arcEdges[q[hi]] := v], ends, EdgesAt(arcEdges, q, {k, hi}), v)
    ensures -1 !in EdgesAt(arcEdges, q, {k, hi})
  {
    assert EdgesAt(arcEdges, q, {}) == {};
    EdgesAtAdd(arcEdges, q, {}, k);
    EdgesAtAdd(arcEdges, q, {k}, hi);
    assert {} + {k} + {hi} == {k, hi};
  }

  /** Line 301: the handled arc's record is cleared. */
  lemma HandledCleared(records: seq<FortuneEventArc>, q: seq<int>, k: int)
    requires 0 <= k < |q| && 0 <= q[k] < |records| && Exists(records[q[k]])
    ensures ClearedAt(records[q[k] := NullArc], records, ArcsAt(q, {k}))
  {
    assert ArcsAt(q, {}) == {};
    ArcsAtAdd(q, {}, k);
    assert {} + {k} == {k};
    ClearedAtWrite(records, records, {}, q[k]);
  }

  /** The edge of the arc at a place of the run is an edge of the run. */
  lemma EdgeInSpan(arcEdges: seq<int>, q: seq<int>, lo: int, hi: int, p: int)
    requires 0 <= lo <= p <= hi < |q| && 0 <= q[p] < |arcEdges|
    ensures arcEdges[q[p]] in EdgesAt(arcEdges, q, Span(lo, hi))
  {
    assert p in Span(lo, hi);
  }

  /** Lines 316-330: a survivor at place p, outside the places done so far,
      has its pending event, if any, cleared and its id deleted. */
  lemma ClearSurvivor(records: seq<FortuneEventArc>, records0: seq<FortuneEventArc>, deleted: set<int>,
                      deleted0: set<int>, q: seq<int>, pos: seq<int>, cleared: set<int>, cancelled: set<int>, p: int)
    requires Placed(q, pos) && 0 <= p < |q| && p !in cleared && p !in cancelled && 0 <= q[p] < |records0|
    requires ClearedAt(records, records0, ArcsAt(q, cleared))
    requires deleted == deleted0 + IdsOf(records0, ArcsAt(q, cancelled))
    ensures records[q[p]] == records0[q[p]]
    ensures Exists(records[q[p]]) ==>
      ClearedAt(records[q[p] := NullArc], records0, ArcsAt(q, cleared + {p})) &&
      deleted + {records[q[p]].id} == deleted0 + IdsOf(records0, ArcsAt(q, cancelled + {p}))
    ensures !Exists(records[q[p]]) ==>
      ClearedAt(records, records0, ArcsAt(q, cleared + {p})) &&
      deleted == deleted0 + IdsOf(records0, ArcsAt(q, cancelled + {p}))
  {
    NotAtOther(q, pos, cleared, p);
    ArcsAtAdd(q, cleared, p);
    ArcsAtAdd(q, cancelled, p);
    IdsOfAdd(records0, ArcsAt(q, cancelled), q[p]);
    if Exists(records[q[p]]) {
      ClearedAtWrite(records, records0, ArcsAt(q, cleared), q[p]);
    }
  }

  /** Every arc the walks of lines 273-294 collect collapses, so it has a
      pending event. */
  lemma RunCollapses(q: seq<int>, records: seq<FortuneEventArc>, e: FortuneEvent, lo: int, k: int, hi: int,
                     removed: seq<int>)
    requires 1 <= lo <= k < hi < |q|
    requires lo == LeftStop(q, records, e, k - 1) + 1 && hi == RightStop(q, records, e, k + 1)
    requires |removed| == hi - lo - 1 && forall t :: 0 <= t < |removed| ==> removed[t] == q[RunPlace(lo, k, t)]
    ensures forall t :: 0 <= t < |removed| ==> Exists(RecordAt(records, removed[t]))
  {
    forall t | 0 <= t < |removed|
      ensures Exists(RecordAt(records, removed[t]))
    {
      var p := RunPlace(lo, k, t);
      assert Collapses(RecordAt(records, q[p]), e);
    }
  }
}
