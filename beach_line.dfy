/** The beach line of Fortune's sweep (Assets/Voronoi/Handlers/BeachLine.cs).
    The source passes every list, array and counter by reference to static
    methods; here they are the fields of one SweepState object. The arcs
    live in two parallel forms: the red-black tree (whose in-order sequence
    is the beach line from left to right) and the arc lists arcSites,
    arcEdges and arcEvents, indexed by the value a tree node stores. Nodes
    and arcs are created together, so the value of node m is m. */
module BeachLine {
  import opened Wrappers
  import opened VMath
  import opened VGeometry
  import opened Edges
  import opened Sites
  import opened Events
  import opened TreeState
  import opened RedBlackTree
  import opened MinHeap
  import opened BeachGeometry
  import opened BeachTrack
  import opened SweepShape
  import opened BeachRemove
  import opened BeachRun

  /** The records after the pending circle event of arc a, if it has one,
      is cancelled (lines 122-130 and 188-202). */
  function CancelledRecords(records: seq<FortuneEventArc>, a: int): seq<FortuneEventArc>
    requires 0 <= a < |records|
  {
    if Exists(records[a]) then records[a := NullArc] else records
  }

  /** The keys of `deleted` after that cancellation: the cancelled id joins
      them. */
  function CancelledIds(records: seq<FortuneEventArc>, deleted: set<int>, a: int): set<int>
    requires 0 <= a < |records|
  {
    if Exists(records[a]) then deleted + {records[a].id} else deleted
  }

  /** A cancellation does not touch the records appended after arc a. */
  lemma CancelledAppend(records: seq<FortuneEventArc>, deleted: set<int>, a: int, x: FortuneEventArc)
    requires 0 <= a < |records|
    ensures CancelledRecords(records + [x], a) == CancelledRecords(records, a) + [x]
    ensures CancelledIds(records + [x], deleted, a) == CancelledIds(records, deleted, a)
  {
  }

  /** The records after a circle check of arc a that scheduled ev, if any
      (line 457). */
  function Noted(records: seq<FortuneEventArc>, a: int, ev: Option<FortuneEvent>): seq<FortuneEventArc>
    requires 0 <= a < |records|
  {
    if ev.Some? then records[a := FromEvent(ev.value)] else records
  }

  /** A circle check changes no other arc's record. */
  lemma NotedKeeps(records: seq<FortuneEventArc>, a: int, ev: Option<FortuneEvent>)
    requires 0 <= a < |records|
    ensures |Noted(records, a, ev)| == |records|
    ensures forall b :: 0 <= b < |records| && b != a ==> Noted(records, a, ev)[b] == records[b]
  {
  }

  /** The ids a circle check takes from the counter (line 452). */
  function Issued(ev: Option<FortuneEvent>): nat
  {
    if ev.Some? then 1 else 0
  }

  /** The events a circle check adds to the queue (line 459). */
  function Enqueued(ev: Option<FortuneEvent>): multiset<FortuneEvent>
  {
    if ev.Some? then multiset{ev.value} else multiset{}
  }

  /** Lines 188-202 and 236-237: the bookkeeping of a closed breakpoint, from the
      records, deleted ids, id counter and queue before to those after: the
      pending events of l and then r are cancelled, then the circles of l
      and then r are checked on the line ln. The depth only limits how far the verifier unfolds it; the source has no counterpart. */
  ghost predicate Closed(depth: nat, ln: Line, l: int, r: int, num: Numerics,
                         rec0: seq<FortuneEventArc>, del0: set<int>, id0: int, Q0: multiset<FortuneEvent>,
                         rec: seq<FortuneEventArc>, del: set<int>, id: int, Q: multiset<FortuneEvent>)
    decreases depth
  {
    if depth > 0 then Closed(depth - 1, ln, l, r, num, rec0, del0, id0, Q0, rec, del, id, Q)
    else
      0 <= l < |rec0| && 0 <= r < |rec0| && Fits(ln, l) && Fits(ln, r) &&
      var r1 := CancelledRecords(rec0, l);
      del == CancelledIds(r1, CancelledIds(rec0, del0, l), r) &&
      (rec, id, Q) == AfterChecks(1, ln, l, r, num, CancelledRecords(r1, r), id0, Q0)
  }

  /** What a circle check reads of the beach line: the sites, the site of
      each arc, and each arc's neighbours on the line (-1 for none). The
      tree stores each arc under its own index. */
  datatype Line = Line(sites: seq<VSite>, arcSites: seq<int>, previous: seq<int>, next: seq<int>)

  /** node is an arc of the line, its neighbours are arcs or -1, and every
      arc's site is one of the sites. */
  predicate Fits(ln: Line, node: int)
  {
    0 <= node < |ln.arcSites| && node < |ln.previous| && node < |ln.next| &&
    -1 <= ln.previous[node] < |ln.arcSites| && -1 <= ln.next[node] < |ln.arcSites| &&
    forall a :: 0 <= a < |ln.arcSites| ==> 0 <= ln.arcSites[a] < |ln.sites|
  }

  /** Lines 398-449: the circle due for arc `node`, as its top and the
      height of its centre: none unless the arc has neighbours on both
      sides, with different sites, that turn towards each other. */
  function CircleAmong(ln: Line, node: int, num: Numerics): (r: Option<(Vec2, real)>)
    requires Fits(ln, node)
    ensures r.Some? ==> ln.previous[node] != -1 && ln.next[node] != -1 &&
                        ln.arcSites[ln.previous[node]] != ln.arcSites[ln.next[node]]
  {
    var left, right := ln.previous[node], ln.next[node];
    if left < 0 || right < 0 || ln.arcSites[left] == ln.arcSites[right] then None
    else CircleTop(ln.sites[ln.arcSites[left]], ln.sites[ln.arcSites[node]], ln.sites[ln.arcSites[right]], num)
  }

  /** The circle event a check of arc `node` schedules (lines 450-457) when
      the id counter stands at id: the circle of CircleAmong, under that id. */
  function EventAmong(ln: Line, node: int, num: Numerics, id: int): (r: Option<FortuneEvent>)
    requires Fits(ln, node)
    ensures r.Some? <==> CircleAmong(ln, node, num).Some?
    ensures r.Some? ==> r.value.id == id && r.value.node == node && !r.value.isSiteEvent
  {
    match CircleAmong(ln, node, num)
    case None => None
    case Some((vPoint, yCenter)) => Some(CircleEvent(id, vPoint, yCenter, node).event)
  }

  /** Lines 156-157, 236-237 and 346-349: the records, the id counter and
      the queue after the circle checks of l and then r, from rec, id and
      Q. Each check schedules EventAmong with the id the counter has when it
      runs, so r's event takes the id after l's. Contracts carry
      AfterChecks(1, ...), which the verifier unfolds one step only. */
  function AfterChecks(depth: nat, ln: Line, l: int, r: int, num: Numerics, rec: seq<FortuneEventArc>, id: int,
                       Q: multiset<FortuneEvent>): (seq<FortuneEventArc>, int, multiset<FortuneEvent>)
    requires Fits(ln, l) && Fits(ln, r) && 0 <= l < |rec| && 0 <= r < |rec|
    decreases depth
  {
    if depth > 0 then AfterChecks(depth - 1, ln, l, r, num, rec, id, Q) else
    var el := EventAmong(ln, l, num, id);
    var er := EventAmong(ln, r, num, id + Issued(el));
    (Noted(Noted(rec, l, el), r, er), id + Issued(el) + Issued(er), Q + Enqueued(el) + Enqueued(er))
  }

  /** Two circle checks in a row, each as CheckCircle states it, are
      AfterChecks. */
  lemma ChecksAfter(ln: Line, l: int, r: int, num: Numerics, rec0: seq<FortuneEventArc>, id0: int,
                    Q0: multiset<FortuneEvent>, rec1: seq<FortuneEventArc>, id1: int,
                    Q1: multiset<FortuneEvent>, rec2: seq<FortuneEventArc>, id2: int,
                    Q2: multiset<FortuneEvent>)
    requires Fits(ln, l) && Fits(ln, r) && 0 <= l < |rec0| && 0 <= r < |rec0| && |rec1| == |rec0|
    requires rec1 == Noted(rec0, l, EventAmong(ln, l, num, id0)) && id1 == id0 + Issued(EventAmong(ln, l, num, id0)) &&
             Q1 == Q0 + Enqueued(EventAmong(ln, l, num, id0))
    requires rec2 == Noted(rec1, r, EventAmong(ln, r, num, id1)) && id2 == id1 + Issued(EventAmong(ln, r, num, id1)) &&
             Q2 == Q1 + Enqueued(EventAmong(ln, r, num, id1))
    ensures (rec2, id2, Q2) == AfterChecks(1, ln, l, r, num, rec0, id0, Q0)
  {
    assert (rec2, id2, Q2) == AfterChecks(0, ln, l, r, num, rec0, id0, Q0);
  }

  class SweepState {
    const sites: seq<VSite>
    /** SiteIndexIds: site index to site id, used to label edges. */
    const sitesMap: map<int, int>
    const tree: Tree
    const heap: EventHeap
    /** The fixed capacity of the arc lists and of the tree arrays. */
    const arcCapacity: int
    /** The fixed capacity of edges and edgesEnds. */
    const edgesCapacity: int

    var edges: seq<VEdge>
    var edgesEnds: seq<Vec2>
    var arcSites: seq<int>
    var arcEdges: seq<int>
    var arcEvents: seq<FortuneEventArc>
    /** The keys of the `deleted` hash map: ids of cancelled circle events
        still in the queue. */
    var deleted: set<int>
    var eventIdSeq: int

    /** Lines 29-54 of Assets/Voronoi/Jobs/FortunesWithConvexHull.cs: the
        tree arrays and the arc lists get `capacity` slots, the event array
        `eventsLength` zero-filled slots, and everything else starts empty. */
    constructor (sites: seq<VSite>, sitesMap: map<int, int>, capacity: nat, eventsLength: nat, edgesCapacity: nat)
      ensures this.sites == sites && this.sitesMap == sitesMap
      ensures arcCapacity == capacity && this.edgesCapacity == edgesCapacity
      ensures fresh(tree) && fresh(tree.value) && fresh(tree.left) && fresh(tree.right) && fresh(tree.parent) &&
              fresh(tree.previous) && fresh(tree.next) && fresh(tree.red)
      ensures tree.Arrays() && tree.value.Length == capacity && tree.count == 0
      ensures fresh(heap) && fresh(heap.events) && heap.Valid() && heap.events.Length == eventsLength && heap.count == 0
      ensures edges == [] && edgesEnds == [] && arcSites == [] && arcEdges == [] && arcEvents == []
      ensures deleted == {} && eventIdSeq == 0
    {
      this.sites := sites;
      this.sitesMap := sitesMap;
      arcCapacity := capacity;
      this.edgesCapacity := edgesCapacity;
      tree := new Tree(capacity);
      heap := new EventHeap(eventsLength, FortuneEvent(0, 0.0, 0.0, 0, 0.0, 0, false));
      edges, edgesEnds := [], [];
      arcSites, arcEdges, arcEvents := [], [], [];
      deleted, eventIdSeq := {}, 0;
    }

    /** The arc lists run in step with the tree's nodes. */
    ghost predicate Arcs()
      reads this`arcSites, this`arcEdges, this`arcEvents, tree, tree.value
    {
      ArcsOk(tree.value[..], tree.count, arcCapacity, arcSites, arcEdges, arcEvents, |sites|)
    }

    /** Every arc's edge, if any, is an edge of the list. */
    ghost predicate EdgeLists()
      reads this`edges, this`edgesEnds, this`arcEdges
    {
      EdgesOk(|edges|, |edgesEnds|, edgesCapacity, arcEdges)
    }

    /** Every site index has an id, and the site events used the first ids. */
    ghost predicate SitesKnown()
      reads this`eventIdSeq
    {
      SitesOk(|sites|, sitesMap, eventIdSeq)
    }

    /** Everything but the tree's own invariant, with the queue's order,
        the arcs' edge references and the lazy deletion folded into Kept(1):
        the verifier unfolds Kept(1) one step only, to Kept(0), and Unseal
        and Seal convert where those parts are needed. */
    ghost predicate Lists()
      reads this`arcSites, this`arcEdges, this`arcEvents, this`edges, this`edgesEnds, this`eventIdSeq, this`deleted, tree, tree.value, heap, heap.events
    {
      Arcs() && SitesKnown() && 0 <= heap.count <= heap.events.Length && Kept(1)
    }

    ghost predicate Kept(depth: nat)  // the depth only limits unfolding; the source has no counterpart
      reads this`arcSites, this`arcEdges, this`arcEvents, this`edges, this`edgesEnds, this`eventIdSeq, this`deleted, tree, tree.value, heap, heap.events
      decreases depth
    {
      if depth == 0 then heap.Valid() && EdgeLists() && TrackedNow() else Kept(depth - 1)
    }

    /** Lists, unfolded. */
    ghost predicate Unsealed()
      reads this`arcSites, this`arcEdges, this`arcEvents, this`edges, this`edgesEnds, this`eventIdSeq, this`deleted, tree, tree.value, heap, heap.events
    {
      Arcs() && SitesKnown() && heap.Valid() && EdgeLists() && TrackedNow()
    }

    lemma Unseal()  // unfolds Kept for the verifier; no step of the source
      requires Lists()
      ensures Unsealed()
    {
      assert Kept(0);
    }

    lemma Seal()  // folds Kept again; no step of the source
      requires Unsealed()
      ensures Lists()
    {
      assert Kept(0);
    }

    /** The tree's invariant, folded: the sweep's contracts carry
        TreeSound(1), which the verifier unfolds only one step, to
        TreeSound(0), and Unfold and Fold convert it where the tree's
        structure is needed. The depth has no counterpart in the source. */
    ghost predicate TreeSound(depth: nat)
      reads tree, tree.left, tree.right, tree.parent, tree.previous, tree.next, tree.red
      decreases depth
    {
      if depth == 0 then tree.Valid() else TreeSound(depth - 1)
    }

    lemma Unfold()
      requires TreeSound(1)
      ensures tree.Valid()
    {
      assert TreeSound(0);
    }

    lemma Fold()
      requires tree.Valid()
      ensures TreeSound(1)
    {
      assert TreeSound(0);
    }

    /** Arc m is on the beach line. */
    ghost predicate OnLine(m: int)
      reads tree
    {
      0 <= m < tree.count && m < |tree.pos| && 0 <= tree.pos[m] < |tree.sq| && tree.sq[tree.pos[m]] == m
    }

    ghost predicate Shape()
      reads this`arcSites, this`arcEdges, this`arcEvents, this`edges, this`edgesEnds, this`eventIdSeq, tree, tree.value, tree.left, tree.right, tree.parent, tree.previous, tree.next, tree.red,
            heap, heap.events
    {
      TreeSound(1) && Arcs()
    }

    /** The lazy deletion of circle events is consistent. */
    ghost predicate TrackedNow()
      reads this`arcEvents, this`deleted, this`eventIdSeq, tree, heap, heap.events
    {
      0 <= heap.count <= heap.events.Length &&
      Tracked(arcEvents, tree.sq, heap.Contents(), deleted, eventIdSeq, |sites|)
    }

    ghost predicate Valid()
      reads this`arcSites, this`arcEdges, this`arcEvents, this`edges, this`edgesEnds, this`eventIdSeq, this`deleted, tree, tree.value, tree.left, tree.right, tree.parent, tree.previous, tree.next, tree.red,
            heap, heap.events
    {
      TreeSound(1) && Lists()
    }

    /** Lines 465-471: one more arc, with no edge and no pending event. Each
        AddNoResize throws when the list is full. */
    method AddArc(site: int) returns (o: Outcome)
      requires |arcSites| == |arcEdges| == |arcEvents|
      modifies this`arcSites, this`arcEdges, this`arcEvents
      ensures o.Pass? <==> old(|arcSites|) < arcCapacity
      ensures o.Pass? ==> arcSites == old(arcSites) + [site] && arcEdges == old(arcEdges) + [-1] &&
                          arcEvents == old(arcEvents) + [NullArc]
      ensures o.Fail? ==> arcSites == old(arcSites) && arcEdges == old(arcEdges) && arcEvents == old(arcEvents)
    {
      if |arcSites| >= arcCapacity {
        return Fail("list capacity exceeded");
      }
      arcSites := arcSites + [site];
      arcEdges := arcEdges + [-1];
      arcEvents := arcEvents + [NullArc];
      return Pass;
    }

    /** Lines 473-479: one more edge, whose end is not set yet. */
    method AddEdge(edge: VEdge) returns (o: Outcome)
      requires Lists()
      modifies this`edges, this`edgesEnds
      ensures Lists()
      ensures o.Pass? <==> old(|edges|) < edgesCapacity
      ensures o.Pass? ==> edges == old(edges) + [edge] && edgesEnds == old(edgesEnds) + [Unset]
      ensures o.Fail? ==> edges == old(edges) && edgesEnds == old(edgesEnds)
    {
      if |edges| >= edgesCapacity {
        return Fail("list capacity exceeded");
      }
      Unseal();
      edges := edges + [edge];
      edgesEnds := edgesEnds + [Unset];
      Seal();
      return Pass;
    }

    /** The site of the arc at a node that is in the tree. */
    function SiteOf(node: int): VSite
      reads this, tree, tree.value
      requires Arcs() && 0 <= node < tree.count
    {
      sites[arcSites[tree.value[node]]]
    }

    /** The site of the arc at a list neighbour, None for -1. */
    function NeighbourSite(node: int): Option<VSite>
      reads this, tree, tree.value
      requires Arcs() && -1 <= node < tree.count
    {
      if node < 0 then None else Some(SiteOf(node))
    }

    /** Lines 352-373: the left breakpoint of the arc at node. */
    function LeftBreakpointAt(node: int, directrix: real, sqrt: real -> real): Bound
      reads this, tree, tree.value, tree.previous
      requires Arcs() && 0 <= node < tree.count && node < tree.previous.Length
      requires -1 <= tree.previous[node] < tree.count
    {
      LeftBreakpoint(SiteOf(node), NeighbourSite(tree.previous[node]), directrix, sqrt)
    }

    /** Lines 375-396: the right breakpoint of the arc at node. */
    function RightBreakpointAt(node: int, directrix: real, sqrt: real -> real): Bound
      reads this, tree, tree.value, tree.next
      requires Arcs() && 0 <= node < tree.count && node < tree.next.Length
      requires -1 <= tree.next[node] < tree.count
    {
      RightBreakpoint(SiteOf(node), NeighbourSite(tree.next[node]), directrix, sqrt)
    }

    /** What the descent of lines 45-96 ends with when it stops at node
        `at`: the placement of x against at's breakpoints decides the pair
        of arcs the new arc goes between. */
    ghost predicate Found(at: int, x: real, directrix: real, sqrt: real -> real, leftNode: int, rightNode: int)
      reads this, tree, tree.value, tree.left, tree.right, tree.parent, tree.previous, tree.next, tree.red,
            heap, heap.events
      requires Shape() && OnLine(at)
    {
      Unfold();
      LinksLive(tree.St(), at);
      match Locate(LeftBreakpointAt(at, directrix, sqrt), RightBreakpointAt(at, directrix, sqrt), x)
      case Before => tree.left[at] == -1 && leftNode == -1 && rightNode == at
      case After => tree.right[at] == -1 && leftNode == at && rightNode == -1
      case OnLeft => leftNode == tree.previous[at] && rightNode == at
      case OnRight => leftNode == at && rightNode == tree.next[at]
      case Inside => leftNode == at && rightNode == at
    }

    /** Lines 40-96: the descent from the root to the arc(s) above a new site
        at x. Both results are -1 exactly when the beach line is empty;
        otherwise they are arcs of the beach line, equal for an arc to
        split and adjacent for a breakpoint. */
    method FindArcs(x: real, directrix: real, sqrt: real -> real) returns (leftNode: int, rightNode: int, ghost at: int)
      requires Shape()
      ensures tree.root == -1 <==> leftNode == -1 && rightNode == -1
      ensures tree.root != -1 ==> OnLine(at) && Found(at, x, directrix, sqrt, leftNode, rightNode)
      ensures leftNode == -1 || OnLine(leftNode)
      ensures rightNode == -1 || OnLine(rightNode)
      ensures leftNode != -1 && rightNode != -1 && leftNode != rightNode ==> leftNode < tree.next.Length && tree.next[leftNode] == rightNode
      ensures leftNode != -1 && leftNode == rightNode ==> 0 <= leftNode < tree.count && SiteOf(leftNode).y != directrix
    {
      Unfold();
      ghost var s := tree.St();
      assert Struct(s);
      leftNode, rightNode := -1, -1;
      var node := tree.root;
      at := node;
      while node > -1 && leftNode < 0 && rightNode < 0
        invariant node == at
        invariant node == -1 ==> tree.root == -1 && leftNode == -1 && rightNode == -1
        invariant leftNode < 0 && rightNode < 0 ==> leftNode == -1 && rightNode == -1
        invariant node != -1 ==> Live(s, node)
        invariant leftNode >= 0 || rightNode >= 0 ==> node != -1 && Found(at, x, directrix, sqrt, leftNode, rightNode)
        decreases if node > -1 && leftNode < 0 && rightNode < 0 then s.hi[node] - s.lo[node] + 1 else 0
      {
        LinksLive(s, node);
        ChildNarrower(s, node);
        var distanceLeft := Sub(LeftBreakpointAt(node, directrix, sqrt), x);
        if Positive(distanceLeft) {
          if tree.left[node] < 0 {
            rightNode := node;
          } else {
            node := tree.left[node];
            at := node;
          }
          continue;
        }
        var distanceRight := SubFrom(x, RightBreakpointAt(node, directrix, sqrt));
        if Positive(distanceRight) {
          if tree.right[node] < 0 {
            leftNode := node;
          } else {
            node := tree.right[node];
            at := node;
          }
          continue;
        }
        if NearZero(distanceLeft) {
          leftNode := tree.previous[node];
          rightNode := node;
          continue;
        }
        if NearZero(distanceRight) {
          leftNode := node;
          rightNode := tree.next[node];
          continue;
        }
        NotInsideDegenerate(SiteOf(node), NeighbourSite(tree.previous[node]), NeighbourSite(tree.next[node]),
                            directrix, sqrt, x);
        leftNode, rightNode := node, node;
      }
      if node != -1 {
        LinksLive(s, node);
      }
    }

    /** Node and its list neighbours are nodes of the tree, and node is
        interior to the beach line exactly when it has both neighbours. */
    ghost predicate Around(node: int)
      reads tree, tree.previous, tree.next
    {
      Neighboured(tree.sq, tree.count, tree.previous[..], tree.next[..], node)
    }

    /** What Arcs() says of the arcs' sites, the part of the state a circle
        check reads and does not change. */
    ghost predicate SitesOfArcs()
      reads this`arcSites, tree, tree.value
    {
      tree.value.Length == arcCapacity && 0 <= tree.count <= arcCapacity && |arcSites| == tree.count &&
      (forall m :: 0 <= m < tree.count ==> tree.value[m] == m) &&
      (forall a :: 0 <= a < tree.count ==> 0 <= arcSites[a] < |sites|)
    }

    /** Lines 398-449: the circle CheckCircle finds due for a node of the
        beach line, as its top and the height of its centre: none unless
        the node has arcs on both sides, with different sites, that turn
        towards each other. */
    function CircleOf(node: int, num: Numerics): (r: Option<(Vec2, real)>)
      reads this`arcSites, tree, tree.value, tree.previous, tree.next
      requires SitesOfArcs() && Around(node)
      ensures r.Some? ==> tree.previous[node] != -1 && tree.next[node] != -1 &&
                          arcSites[tree.previous[node]] != arcSites[tree.next[node]]
    {
      var left, right := tree.previous[node], tree.next[node];
      if left < 0 || right < 0 then None
      else
        var leftSiteIndex := arcSites[tree.value[left]];
        var centerSiteIndex := arcSites[tree.value[node]];
        var rightSiteIndex := arcSites[tree.value[right]];
        if leftSiteIndex == rightSiteIndex then None
        else CircleTop(sites[leftSiteIndex], sites[centerSiteIndex], sites[rightSiteIndex], num)
    }

    /** The circle event a check schedules in the current state. */
    function Scheduled(node: int, num: Numerics): (r: Option<FortuneEvent>)
      reads this, tree, tree.value, tree.previous, tree.next
      requires Arcs() && Around(node)
      ensures r.Some? ==> r.value.id == eventIdSeq && r.value.node == node && !r.value.isSiteEvent
    {
      match CircleOf(node, num)
      case None => None
      case Some((vPoint, yCenter)) => Some(CircleEvent(eventIdSeq, vPoint, yCenter, node).event)
    }

    /** The event a check schedules is EventAmong's for the current line:
        CircleOf reads the sites through the tree's values, which are the
        arcs' own indices. */
    lemma ScheduledAmong(node: int, num: Numerics)
      requires SitesOfArcs() && Around(node)
      ensures Fits(Line(sites, arcSites, tree.previous[..], tree.next[..]), node)
      ensures CircleOf(node, num) == CircleAmong(Line(sites, arcSites, tree.previous[..], tree.next[..]), node, num)
    {
    }

    /** A scheduled event is the top of the circle through the sites of the
        node and of its two neighbours, and the node is then one of three
        consecutive arcs with different outer sites; none is scheduled when
        one of those is missing or when the outer arcs turn away. */
    lemma ScheduledIsCircleTop(node: int, num: Numerics)
      requires Arcs() && Around(node)
      ensures Scheduled(node, num).Some? ==> Interior(tree.sq, node)
      ensures var l, c := tree.previous[node], tree.next[node];
        Scheduled(node, num).Some? <==>
          l != -1 && c != -1 && arcSites[l] != arcSites[c] &&
          Cross(Point(SiteOf(l)).Minus(Point(SiteOf(node))), Point(SiteOf(c)).Minus(Point(SiteOf(node)))) < -Epsilon
      ensures Scheduled(node, num).Some? ==>
        var e := Scheduled(node, num).value;
        var l, c := tree.previous[node], tree.next[node];
        var o := Circumcenter(Point(SiteOf(node)), Point(SiteOf(l)), Point(SiteOf(c)), num);
        Vec2(e.x, e.y) == TopOf(o, Dist2(Point(SiteOf(node)), o), num) && e.yCenter == o.y &&
        Dist2(Point(SiteOf(node)), o) == Dist2(Point(SiteOf(l)), o) &&
        Dist2(Point(SiteOf(node)), o) == Dist2(Point(SiteOf(c)), o)
    {
      var l, c := tree.previous[node], tree.next[node];
      if Scheduled(node, num).Some? {
        CircleTopIsOnCircle(SiteOf(l), SiteOf(node), SiteOf(c), num);
      }
    }

    /** Lines 398-462, for a node whose pending event has been cleared (every
        caller clears it first). When an event is due it takes the next id,
        the node records it, and it is queued; EventInsert throws on a full
        queue. The event itself is Scheduled's. */
    method CheckCircle(node: int, num: Numerics) returns (o: Outcome, ghost ev: Option<FortuneEvent>)
      requires Lists() && Around(node) && !Exists(arcEvents[node])
      modifies this`arcEvents, this`eventIdSeq, heap, heap.events
      ensures Fits(Line(sites, arcSites, tree.previous[..], tree.next[..]), node) &&
              ev == EventAmong(Line(sites, arcSites, tree.previous[..], tree.next[..]), node, num, old(eventIdSeq))
      ensures arcEvents == Noted(old(arcEvents), node, ev) && eventIdSeq == old(eventIdSeq) + Issued(ev)
      ensures o.Pass? <==> ev.None? || old(heap.count) < heap.events.Length
      ensures ev.None? ==> heap.count == old(heap.count) && heap.events[..] == old(heap.events[..])
      ensures o.Pass? ==> Lists()
      ensures o.Pass? ==> heap.Contents() == old(heap.Contents()) + Enqueued(ev)
      ensures arcEdges == old(arcEdges) && edges == old(edges) && edgesEnds == old(edgesEnds)
    {
      var circleEvent := Scheduled(node, num);
      ev := circleEvent;
      ScheduledAmong(node, num);
      if circleEvent.Some? {
        var e := circleEvent.value;
        Unseal();
        ScheduledIsCircleTop(node, num);
        TrackedSchedule(arcEvents, tree.sq, heap.Contents(), deleted, eventIdSeq, |sites|, node, e);
        o := Enqueue(node, e);
        if o.Pass? {
          Seal();
        }
      } else {
        o := Pass;
      }
    }

    /** The writes of lines 452-459: the node records the event, the id
        counter moves on and the event is queued. */
    method Enqueue(node: int, e: FortuneEvent) returns (o: Outcome)
      requires Arcs() && SitesKnown() && heap.Valid() && EdgeLists() && 0 <= node < |arcEvents| && e.id == eventIdSeq
      requires Tracked(arcEvents[node := FromEvent(e)], tree.sq, heap.Contents() + multiset{e}, deleted, eventIdSeq + 1, |sites|)
      modifies this`arcEvents, this`eventIdSeq, heap, heap.events
      ensures heap.Valid()
      ensures eventIdSeq == old(eventIdSeq) + 1 && arcEvents == old(arcEvents)[node := FromEvent(e)]
      ensures o.Pass? <==> old(heap.count) < heap.events.Length
      ensures o.Pass? ==> heap.Contents() == old(heap.Contents()) + multiset{e}
      ensures o.Pass? ==> Unsealed()
    {
      ghost var r, Q := arcEvents, heap.Contents();
      eventIdSeq := eventIdSeq + 1;
      arcEvents := arcEvents[node := FromEvent(e)];
      o := heap.EventInsert(e);
      if o.Pass? {
        assert Tracked(arcEvents, tree.sq, heap.Contents(), deleted, eventIdSeq, |sites|);
      }
    }
    /** Lines 122-130 and 188-202: a pending circle event of the arc at node
        was a false alarm. Its id goes into `deleted`, where it was not yet
        (so NativeHashMap.Add does not throw), and the record is cleared. */
    method Cancel(node: int)
      requires Lists() && 0 <= node < |arcEvents|
      modifies this`arcEvents, this`deleted
      ensures Lists() && !Exists(arcEvents[node])
      ensures old(TreeSound(1)) ==> TreeSound(1)
      ensures old(Exists(arcEvents[node])) ==>
        arcEvents == old(arcEvents)[node := NullArc] && deleted == old(deleted) + {old(arcEvents[node]).id}
      ensures !old(Exists(arcEvents[node])) ==> arcEvents == old(arcEvents) && deleted == old(deleted)
      ensures arcEvents == CancelledRecords(old(arcEvents), node) &&
              deleted == CancelledIds(old(arcEvents), old(deleted), node)
      ensures arcEdges == old(arcEdges) && edges == old(edges) && edgesEnds == old(edgesEnds)
    {
      Unseal();
      var arcEvent := arcEvents[node];
      if Exists(arcEvent) {
        TrackedCancel(arcEvents, tree.sq, heap.Contents(), deleted, eventIdSeq, |sites|, node);
        assert arcEvent.id !in deleted;
        deleted := deleted + {arcEvent.id};
        arcEvents := arcEvents[node := NullArc];
      }
      Seal();
    }

    /** Lines 153-154, 179, 223 and 225: the arc at node takes an edge of
        the list as its edge. */
    method SetArcEdge(node: int, edge: int)
      requires Lists() && 0 <= node < |arcEdges| && 0 <= edge < |edges|
      modifies this`arcEdges
      ensures Lists() && arcEdges == old(arcEdges)[node := edge]
    {
      Unseal();
      arcEdges := arcEdges[node := edge];
      Seal();
    }

    /** Line 228: the end of the edge of the arc at node becomes v. The
        list indexer throws for -1, the index of an arc that has no edge
        yet. */
    method SetEnd(node: int, v: Vec2) returns (o: Outcome)
      requires Lists() && 0 <= node < |arcEdges|
      modifies this`edgesEnds
      ensures Lists()
      ensures o.Pass? <==> old(arcEdges[node]) != -1
      ensures o.Pass? ==>
        0 <= old(arcEdges[node]) < |old(edgesEnds)| && edgesEnds == old(edgesEnds)[old(arcEdges[node]) := v]
      ensures o.Fail? ==> edgesEnds == old(edgesEnds)
    {
      Unseal();
      var i := arcEdges[node];
      if i < 0 {
        return Fail("index out of range");
      }
      edgesEnds := edgesEnds[i := v];
      Seal();
      return Pass;
    }

    /** The place right after leftNode on the beach line, the first place
        when leftNode is -1. */
    ghost function After(leftNode: int): (k: int)
      reads tree
      requires leftNode == -1 || (0 <= leftNode < |tree.pos| && 0 <= tree.pos[leftNode] < |tree.sq|)
      ensures 0 <= k <= |tree.sq|
    {
      if leftNode == -1 then 0 else tree.pos[leftNode] + 1
    }

    /** The lazy deletion stays consistent when the next node, with an empty
        record, is put on the beach line at place k. */
    lemma GrowTracked(k: int)
      requires Unsealed() && 0 <= k <= |tree.sq| && tree.count !in tree.sq
      ensures Tracked(arcEvents + [NullArc], tree.sq[..k] + [tree.count] + tree.sq[k..], heap.Contents(), deleted,
                      eventIdSeq, |sites|)
    {
      TrackedGrow(arcEvents, tree.sq, heap.Contents(), deleted, eventIdSeq, |sites|);
      TrackedInsert(arcEvents + [NullArc], tree.sq, heap.Contents(), deleted, eventIdSeq, |sites|, k, tree.count);
    }

    /** The next node is not on the beach line yet. */
    lemma NextFree()
      requires TreeSound(1)
      ensures tree.count !in tree.sq
    {
      Unfold();
      NotInLine(tree.St(), tree.count);
    }

    /** Lines 100-106, and 134-138 for the right part of a split arc: one
        more arc for `site`, whose node goes right after leftNode on the
        beach line, or first when leftNode is -1. */
    method Grow(leftNode: int, site: int) returns (o: Outcome, newNode: int)
      requires Valid() && 0 <= site < |sites| && (leftNode == -1 || OnLine(leftNode))
      modifies this`arcSites, this`arcEdges, this`arcEvents,
               tree, tree.value, tree.left, tree.right, tree.parent, tree.previous, tree.next, tree.red
      ensures newNode == old(tree.count)
      ensures o.Pass? <==> old(tree.count) < arcCapacity
      ensures o.Pass? ==> Valid() && tree.count == old(tree.count) + 1
      ensures o.Pass? ==>
        arcSites == old(arcSites) + [site] && arcEdges == old(arcEdges) + [-1] && arcEvents == old(arcEvents) + [NullArc]
      ensures o.Pass? ==> var k := old(After(leftNode)); tree.sq == old(tree.sq)[..k] + [newNode] + old(tree.sq)[k..]
    {
      newNode := tree.count;
      NextFree();
      Unseal();
      GrowTracked(After(leftNode));
      o := AddArc(site);
      if o.Fail? {
        return;
      }
      ArcsGrow(old(tree.value[..]), newNode, arcCapacity, old(arcSites), old(arcEdges), old(arcEvents), |sites|, site);
      EdgesGrowArc(|edges|, edgesCapacity, old(arcEdges));
      var n := Attach(leftNode, |arcSites| - 1);
      Seal();
    }

    /** Lines 104-106: the node for the new arc goes into the tree. */
    method Attach(leftNode: int, arc: int) returns (n: int)
      requires TreeSound(1) && 0 <= tree.count < tree.value.Length
      requires leftNode == -1 || OnLine(leftNode)
      modifies tree, tree.value, tree.left, tree.right, tree.parent, tree.previous, tree.next, tree.red
      ensures TreeSound(1) && n == old(tree.count) && tree.count == old(tree.count) + 1
      ensures tree.value[..] == old(tree.value[..])[n := arc]
      ensures var k := old(After(leftNode)); tree.sq == old(tree.sq)[..k] + [n] + old(tree.sq)[k..]
    {
      Unfold();
      n := tree.InsertTreeNode(leftNode, arc);
      assert leftNode == -1 ==> tree.sq == old(tree.sq)[..0] + [n] + old(tree.sq)[0..];
      Fold();
    }

    /** What follows from the insertion of node n at place k of the beach
        line q, for two arcs a and b of q: n is live at place k, and a, b and
        n are on the line with their neighbours in range. */
    lemma Settled(q: seq<int>, k: int, n: int, a: int, b: int)
      requires Shape() && 0 <= k <= |q| && tree.sq == q[..k] + [n] + q[k..] && a in q && b in q
      ensures OnLine(n) && tree.pos[n] == k
      ensures a in tree.sq && b in tree.sq && Around(a) && Around(b) && Around(n)
    {
      Unfold();
      PlaceOf(tree.St(), k);
      InsertKeeps(q, k, n, a);
      InsertKeeps(q, k, n, b);
      LiveNeighboured(tree.St(), a);
      LiveNeighboured(tree.St(), b);
      LiveNeighboured(tree.St(), n);
    }

    /** Lines 118-159: the new arc at newNode splits the arc `arc` it lies
        under. A pending event of `arc` is cancelled; the right part of the
        arc becomes a new node after newNode; the two half edges of the new
        breakpoint pair start at the site's projection onto the arc, and
        circle events are checked for both outer parts. */
    method SplitArc(arc: int, newNode: int, site: int, x: real, directrix: real, num: Numerics)
      returns (o: Outcome, rightNode: int)
      requires Valid() && 0 <= site < |sites| && 0 <= arc < |arcSites| && arc != newNode
      requires arc in tree.sq && OnLine(newNode)
      requires sites[arcSites[arc]].y != directrix
      modifies this, tree, tree.value, tree.left, tree.right, tree.parent, tree.previous, tree.next, tree.red,
               heap, heap.events
      ensures rightNode == old(tree.count)
      ensures o.Pass? ==> Valid()
      ensures o.Pass? ==>
        var k := old(tree.pos[newNode]) + 1;
        tree.sq == old(tree.sq)[..k] + [rightNode] + old(tree.sq)[k..]
      ensures o.Pass? ==> arcSites == old(arcSites) + [old(arcSites[arc])]
      ensures o.Pass? ==>
        var a := sites[old(arcSites[arc])];
        var start := Vec2(x, EvalParabola(a.x, a.y, directrix, x));
        var e := |old(edges)|;
        edges == old(edges) + [FromSitesWithNeighbor(start, site, old(arcSites[arc]), e + 1, sitesMap).value] +
                             [FromSites(start, old(arcSites[arc]), site, sitesMap).value] &&
        edgesEnds == old(edgesEnds) + [Unset] + [Unset] &&
        arcEdges == old(arcEdges)[newNode := e] + [e + 1]
    {
      o, rightNode := Divide(arc, newNode);
      if o.Fail? {
        return;
      }
      o := SplitRest(arc, newNode, rightNode, site, x, directrix, num);
      if o.Pass? {
        AppendThenSet(old(arcEdges), newNode, |old(edges)|, |old(edges)| + 1);
      }
    }

    /** Lines 118-138: the pending event of `arc` is cancelled and a copy of
        the arc, its right part, becomes a new node right after newNode. */
    method Divide(arc: int, newNode: int) returns (o: Outcome, rightNode: int)
      requires Valid() && 0 <= arc < |arcSites| && arc != newNode
      requires arc in tree.sq && OnLine(newNode)
      modifies this`arcSites, this`arcEdges, this`arcEvents, this`deleted,
               tree, tree.value, tree.left, tree.right, tree.parent, tree.previous, tree.next, tree.red
      ensures rightNode == old(tree.count)
      ensures o.Pass? <==> old(tree.count) < arcCapacity
      ensures o.Pass? ==> TreeSound(1) && Lists()
      ensures o.Pass? ==>
        Around(arc) && Around(rightNode) &&
        !Exists(arcEvents[arc]) && !Exists(arcEvents[rightNode])
      ensures o.Pass? ==>
        var k := old(tree.pos[newNode]) + 1;
        tree.sq == old(tree.sq)[..k] + [rightNode] + old(tree.sq)[k..]
      ensures o.Pass? ==> arcSites == old(arcSites) + [old(arcSites[arc])] && arcEdges == old(arcEdges) + [-1]
      ensures o.Pass? ==>
        arcEvents == CancelledRecords(old(arcEvents), arc) + [NullArc] &&
        deleted == CancelledIds(old(arcEvents), old(deleted), arc)
    {
      ghost var q, k := tree.sq, tree.pos[newNode] + 1;
      Cancel(arc);
      var leftNodeSite := arcSites[arc];
      o, rightNode := Grow(newNode, leftNodeSite);
      if o.Fail? {
        return;
      }
      Settled(q, k, rightNode, arc, arc);
    }

    /** Lines 141-158: the edges of a split arc, then its circle events. */
    method SplitRest(arc: int, newNode: int, rightNode: int, site: int, x: real, directrix: real, num: Numerics)
      returns (o: Outcome)
      requires Lists() && 0 <= site < |sites| && 0 <= arc < |arcSites|
      requires 0 <= newNode < |arcEdges| && arc != rightNode
      requires Around(arc) && Around(rightNode)
      requires !Exists(arcEvents[arc]) && !Exists(arcEvents[rightNode])
      requires sites[arcSites[arc]].y != directrix
      modifies this`edges, this`edgesEnds, this`arcEdges, this`arcEvents, this`eventIdSeq, heap, heap.events
      ensures o.Pass? ==> Lists()
      ensures old(TreeSound(1)) ==> TreeSound(1)
      ensures arcSites == old(arcSites)
      ensures o.Pass? ==>
        var a := sites[arcSites[arc]];
        var start := Vec2(x, EvalParabola(a.x, a.y, directrix, x));
        var e := |old(edges)|;
        edges == old(edges) + [FromSitesWithNeighbor(start, site, arcSites[arc], e + 1, sitesMap).value] +
                             [FromSites(start, arcSites[arc], site, sitesMap).value] &&
        edgesEnds == old(edgesEnds) + [Unset] + [Unset] &&
        arcEdges == old(arcEdges)[newNode := e][rightNode := e + 1]
    {
      o := SplitEdges(arc, newNode, rightNode, site, x, directrix);
      if o.Fail? {
        return;
      }
      o := CheckBoth(arc, rightNode, num);
    }

    /** Lines 141-154: the two half edges of a split arc's new breakpoints,
        from the site's projection onto the arc, and the edge of each new
        arc. */
    method SplitEdges(arc: int, newNode: int, rightNode: int, site: int, x: real, directrix: real)
      returns (o: Outcome)
      requires Lists() && 0 <= site < |sites| && 0 <= arc < |arcSites|
      requires 0 <= newNode < |arcEdges| && 0 <= rightNode < |arcEdges|
      requires sites[arcSites[arc]].y != directrix
      modifies this`edges, this`edgesEnds, this`arcEdges
      ensures Lists()
      ensures old(TreeSound(1)) ==> TreeSound(1)
      ensures o.Pass? <==> old(|edges|) + 2 <= edgesCapacity
      ensures o.Pass? ==>
        var a := sites[arcSites[arc]];
        var start := Vec2(x, EvalParabola(a.x, a.y, directrix, x));
        var e := |old(edges)|;
        edges == old(edges) + [FromSitesWithNeighbor(start, site, arcSites[arc], e + 1, sitesMap).value] +
                             [FromSites(start, arcSites[arc], site, sitesMap).value] &&
        edgesEnds == old(edgesEnds) + [Unset] + [Unset] &&
        arcEdges == old(arcEdges)[newNode := e][rightNode := e + 1]
    {
      var leftNodeSite := arcSites[arc];
      var nodeArcSite := sites[leftNodeSite];
      var y := EvalParabola(nodeArcSite.x, nodeArcSite.y, directrix, x);
      var intersection := Vec2(x, y);
      var leftEdge := |edges|;
      var rightEdge := leftEdge + 1;
      o := AddEdge(FromSitesWithNeighbor(intersection, site, leftNodeSite, rightEdge, sitesMap).value);
      if o.Fail? {
        return;
      }
      o := AddEdge(FromSites(intersection, leftNodeSite, site, sitesMap).value);
      if o.Fail? {
        return;
      }
      SetArcEdge(newNode, leftEdge);
      SetArcEdge(rightNode, rightEdge);
    }

    /** Lines 164-180: the new arc lands right of the last arc, which only
        happens while every site so far has had the same y. A vertical edge
        pair starts half way between the two sites, at float.MinValue; no
        circle event can come of colinear arcs. */
    method StartColinear(leftNode: int, newNode: int, site: int) returns (o: Outcome)
      requires Lists() && 0 <= site < |sites| && 0 <= leftNode < |arcSites|
      requires 0 <= newNode < |arcEdges|
      modifies this`edges, this`edgesEnds, this`arcEdges
      ensures Lists()
      ensures old(TreeSound(1)) ==> TreeSound(1)
      ensures o.Pass? <==> old(|edges|) + 2 <= edgesCapacity
      ensures o.Pass? ==>
        var a := sites[arcSites[leftNode]];
        var start := Vec2((a.x + sites[site].x) / 2.0, FloatMin);
        var e := |old(edges)|;
        edges == old(edges) + [FromSitesWithNeighbor(start, site, arcSites[leftNode], e + 1, sitesMap).value] +
                             [FromSites(start, arcSites[leftNode], site, sitesMap).value] &&
        edgesEnds == old(edgesEnds) + [Unset] + [Unset] &&
        arcEdges == old(arcEdges)[newNode := e]
    {
      var newEdge := |edges|;
      var infEdge := newEdge + 1;
      var leftNodeSite := arcSites[leftNode];
      var start := Vec2((sites[leftNodeSite].x + sites[site].x) / 2.0, FloatMin);
      o := AddEdge(FromSitesWithNeighbor(start, site, leftNodeSite, infEdge, sitesMap).value);
      if o.Fail? {
        return;
      }
      o := AddEdge(FromSites(start, leftNodeSite, site, sitesMap).value);
      if o.Fail? {
        return;
      }
      SetArcEdge(newNode, newEdge);
    }

    /** Lines 185-238: the new arc lands on the breakpoint between leftNode
        and rightNode, which disappears. Both pending events are cancelled,
        the edges are set up as BreakpointEdges says, and circle events are
        checked for both neighbours. priorSites and priorEdges are the arc
        lists before newNode was appended to them; firstEdge is the index
        the first new edge gets. */
    method CloseBreakpoint(leftNode: int, rightNode: int, newNode: int, site: int, num: Numerics,
                           ghost priorSites: seq<int>, ghost priorEdges: seq<int>, ghost firstEdge: int)
      returns (o: Outcome)
      requires Lists() && 0 <= site < |sites|
      requires Around(leftNode) && Around(rightNode) && leftNode != rightNode
      requires arcSites == priorSites + [site] && arcEdges == priorEdges + [-1]
      requires newNode == |priorSites| == |priorEdges| && 0 <= leftNode < newNode && 0 <= rightNode < newNode && firstEdge == |edges|
      requires 0 <= priorSites[leftNode] < |sites| && 0 <= priorSites[rightNode] < |sites|
      modifies this`arcEvents, this`deleted, this`edges, this`edgesEnds, this`arcEdges, this`eventIdSeq,
               heap, heap.events
      ensures old(TreeSound(1)) ==> TreeSound(1)
      ensures tree.sq == old(tree.sq) && arcSites == priorSites + [site]
      ensures o.Pass? ==> Lists() && 0 <= priorEdges[rightNode] < |old(edgesEnds)|
      ensures o.Pass? ==>
        var vertex := Circumcenter(Point(sites[priorSites[leftNode]]), Point(sites[site]),
                                   Point(sites[priorSites[rightNode]]), num);
        edges == old(edges) + [FromSites(vertex, site, priorSites[leftNode], sitesMap).value] +
                             [FromSites(vertex, priorSites[rightNode], site, sitesMap).value] &&
        edgesEnds == old(edgesEnds)[priorEdges[rightNode] := vertex] + [Unset] + [Unset] &&
        arcEdges == priorEdges[rightNode := firstEdge + 1] + [firstEdge]
      ensures o.Pass? ==>
        Closed(1, Line(sites, arcSites, tree.previous[..], tree.next[..]), leftNode, rightNode, num,
               old(arcEvents), old(deleted), old(eventIdSeq), old(heap.Contents()),
               arcEvents, deleted, eventIdSeq, heap.Contents())
    {
      assert arcSites[leftNode] == priorSites[leftNode] && arcSites[rightNode] == priorSites[rightNode];
      CancelBoth(leftNode, rightNode);
      o := MeetBreakpoint(leftNode, rightNode, newNode, site, num, priorSites, priorEdges, firstEdge);
      if o.Pass? {
        assert Closed(0, Line(sites, arcSites, tree.previous[..], tree.next[..]), leftNode, rightNode, num,
                      old(arcEvents), old(deleted), old(eventIdSeq), old(heap.Contents()),
                      arcEvents, deleted, eventIdSeq, heap.Contents());
      }
    }

    /** Lines 205-237: with both pending events cancelled, the edges are set
        up as BreakpointEdges says and circle events are checked for both
        neighbours; deleted is left alone. */
    method MeetBreakpoint(leftNode: int, rightNode: int, newNode: int, site: int, num: Numerics,
                          ghost priorSites: seq<int>, ghost priorEdges: seq<int>, ghost firstEdge: int)
      returns (o: Outcome)
      requires Lists() && 0 <= site < |sites|
      requires Around(leftNode) && Around(rightNode) && leftNode != rightNode
      requires arcSites == priorSites + [site] && arcEdges == priorEdges + [-1]
      requires newNode == |priorSites| == |priorEdges| && 0 <= leftNode < newNode && 0 <= rightNode < newNode && firstEdge == |edges|
      requires 0 <= priorSites[leftNode] < |sites| && 0 <= priorSites[rightNode] < |sites|
      requires !Exists(arcEvents[leftNode]) && !Exists(arcEvents[rightNode])
      modifies this`arcEvents, this`edges, this`edgesEnds, this`arcEdges, this`eventIdSeq, heap, heap.events
      ensures old(TreeSound(1)) ==> TreeSound(1)
      ensures tree.sq == old(tree.sq) && arcSites == priorSites + [site]
      ensures o.Pass? ==> Lists() && 0 <= priorEdges[rightNode] < |old(edgesEnds)|
      ensures o.Pass? ==>
        var vertex := Circumcenter(Point(sites[priorSites[leftNode]]), Point(sites[site]),
                                   Point(sites[priorSites[rightNode]]), num);
        edges == old(edges) + [FromSites(vertex, site, priorSites[leftNode], sitesMap).value] +
                             [FromSites(vertex, priorSites[rightNode], site, sitesMap).value] &&
        edgesEnds == old(edgesEnds)[priorEdges[rightNode] := vertex] + [Unset] + [Unset] &&
        arcEdges == priorEdges[rightNode := firstEdge + 1] + [firstEdge]
      ensures o.Pass? ==>
        var ln := Line(sites, arcSites, tree.previous[..], tree.next[..]);
        Fits(ln, leftNode) && Fits(ln, rightNode) &&
        (arcEvents, eventIdSeq, heap.Contents()) ==
        AfterChecks(1, ln, leftNode, rightNode, num, old(arcEvents), old(eventIdSeq), old(heap.Contents()))
    {
      assert arcSites[leftNode] == priorSites[leftNode] && arcSites[rightNode] == priorSites[rightNode];
      o := BreakpointEdges(leftNode, rightNode, newNode, site, num);
      if o.Fail? {
        return;
      }
      SetAppendedThenSet(priorEdges, rightNode, firstEdge + 1, firstEdge);
      o := CheckBoth(leftNode, rightNode, num);
    }

    /** Lines 188-202: the pending events of both nodes are cancelled. */
    method CancelBoth(leftNode: int, rightNode: int)
      requires Lists() && 0 <= leftNode < |arcEvents| && 0 <= rightNode < |arcEvents|
      modifies this`arcEvents, this`deleted
      ensures Lists() && !Exists(arcEvents[leftNode]) && !Exists(arcEvents[rightNode])
      ensures old(TreeSound(1)) ==> TreeSound(1)
      ensures var r1 := CancelledRecords(old(arcEvents), leftNode);
        arcEvents == CancelledRecords(r1, rightNode) &&
        deleted == CancelledIds(r1, CancelledIds(old(arcEvents), old(deleted), leftNode), rightNode)
      ensures arcEdges == old(arcEdges) && edges == old(edges) && edgesEnds == old(edgesEnds)
    {
      Cancel(leftNode);
      Cancel(rightNode);
    }

    /** Lines 156-157 and 236-237: circle events are checked for both nodes,
        the left one first. */
    method CheckBoth(leftNode: int, rightNode: int, num: Numerics) returns (o: Outcome)
      requires Lists() && Around(leftNode) && Around(rightNode) && leftNode != rightNode
      requires !Exists(arcEvents[leftNode]) && !Exists(arcEvents[rightNode])
      modifies this`arcEvents, this`eventIdSeq, heap, heap.events
      ensures o.Pass? ==> Lists()
      ensures old(TreeSound(1)) ==> TreeSound(1)
      ensures arcEdges == old(arcEdges) && edges == old(edges) && edgesEnds == old(edgesEnds)
      ensures |arcEvents| == old(|arcEvents|)
      ensures forall a :: 0 <= a < |arcEvents| && a != leftNode && a != rightNode ==> arcEvents[a] == old(arcEvents[a])
      ensures o.Pass? ==>
        var ln := Line(sites, arcSites, tree.previous[..], tree.next[..]);
        Fits(ln, leftNode) && Fits(ln, rightNode) &&
        (arcEvents, eventIdSeq, heap.Contents()) ==
        AfterChecks(1, ln, leftNode, rightNode, num, old(arcEvents), old(eventIdSeq), old(heap.Contents()))
    {
      ghost var rec0, id0, Q0 := arcEvents, eventIdSeq, heap.Contents();
      ghost var el;
      o, el := CheckCircle(leftNode, num);
      if o.Fail? {
        NotedKeeps(rec0, leftNode, el);
        return;
      }
      o := CheckNext(leftNode, rightNode, num, rec0, id0, Q0, el);
    }

    /** Lines 157 and 237: the circle check of rightNode that follows the
        one of leftNode, which took the records, the id counter and the
        queue from rec0, id0 and Q0 to their current values. */
    method CheckNext(leftNode: int, rightNode: int, num: Numerics, ghost rec0: seq<FortuneEventArc>,
                     ghost id0: int, ghost Q0: multiset<FortuneEvent>, ghost el: Option<FortuneEvent>)
      returns (o: Outcome)
      requires Lists() && Around(leftNode) && Around(rightNode) && leftNode != rightNode
      requires 0 <= leftNode < |rec0| && 0 <= rightNode < |rec0| && !Exists(rec0[rightNode])
      requires Fits(Line(sites, arcSites, tree.previous[..], tree.next[..]), leftNode) && el == EventAmong(Line(sites, arcSites, tree.previous[..], tree.next[..]), leftNode, num, id0)
      requires arcEvents == Noted(rec0, leftNode, el) && eventIdSeq == id0 + Issued(el) &&
               heap.Contents() == Q0 + Enqueued(el)
      modifies this`arcEvents, this`eventIdSeq, heap, heap.events
      ensures o.Pass? ==> Lists()
      ensures old(TreeSound(1)) ==> TreeSound(1)
      ensures arcEdges == old(arcEdges) && edges == old(edges) && edgesEnds == old(edgesEnds)
      ensures |arcEvents| == |rec0|
      ensures forall a :: 0 <= a < |arcEvents| && a != leftNode && a != rightNode ==> arcEvents[a] == rec0[a]
      ensures o.Pass? ==>
        var ln := Line(sites, arcSites, tree.previous[..], tree.next[..]);
        Fits(ln, leftNode) && Fits(ln, rightNode) &&
        (arcEvents, eventIdSeq, heap.Contents()) == AfterChecks(1, ln, leftNode, rightNode, num, rec0, id0, Q0)
    {
      NotedKeeps(rec0, leftNode, el);
      ghost var rec1, id1, Q1 := arcEvents, eventIdSeq, heap.Contents();
      ghost var er;
      o, er := CheckCircle(rightNode, num);
      NotedKeeps(rec1, rightNode, er);
      if o.Pass? {
        ChecksAfter(Line(sites, arcSites, tree.previous[..], tree.next[..]), leftNode, rightNode, num, rec0, id0, Q0, rec1, id1, Q1,
                    arcEvents, eventIdSeq, heap.Contents());
      }
    }

    /** Lines 205-225: the edge of rightNode ends at the centre of the circle
        through the sites of leftNode, the new arc and rightNode (the list
        indexer throws when rightNode has no edge); two new edges start
        there, one for the new arc and one for rightNode. */
    method BreakpointEdges(leftNode: int, rightNode: int, newNode: int, site: int, num: Numerics)
      returns (o: Outcome)
      requires Lists() && 0 <= site < |sites| && 0 <= leftNode < |arcSites|
      requires 0 <= rightNode < |arcSites| && 0 <= newNode < |arcSites| && newNode != rightNode
      modifies this`edges, this`edgesEnds, this`arcEdges
      ensures Lists()
      ensures old(TreeSound(1)) ==> TreeSound(1)
      ensures o.Pass? <==> old(arcEdges[rightNode]) != -1 && old(|edges|) + 2 <= edgesCapacity
      ensures o.Pass? ==> 0 <= old(arcEdges[rightNode]) < |old(edgesEnds)|
      ensures o.Pass? ==>
        var vertex := Circumcenter(Point(sites[arcSites[leftNode]]), Point(sites[site]),
                                   Point(sites[arcSites[rightNode]]), num);
        var e := |old(edges)|;
        edges == old(edges) + [FromSites(vertex, site, arcSites[leftNode], sitesMap).value] +
                             [FromSites(vertex, arcSites[rightNode], site, sitesMap).value] &&
        edgesEnds == old(edgesEnds)[old(arcEdges[rightNode]) := vertex] + [Unset] + [Unset] &&
        arcEdges == old(arcEdges)[newNode := e][rightNode := e + 1]
    {
      var siteData := sites[site];
      var leftSite := sites[arcSites[leftNode]];
      var rightSite := sites[arcSites[rightNode]];
      var vertex := Circumcenter(Point(leftSite), Point(siteData), Point(rightSite), num);
      o := SetEnd(rightNode, vertex);
      if o.Fail? {
        return;
      }
      var newEdge := |edges|;
      o := AddEdge(FromSites(vertex, site, arcSites[leftNode], sitesMap).value);
      if o.Fail? {
        return;
      }
      SetArcEdge(newNode, newEdge);
      var rightEdge := |edges|;
      o := AddEdge(FromSites(vertex, arcSites[rightNode], site, sitesMap).value);
      if o.Fail? {
        return;
      }
      SetArcEdge(rightNode, rightEdge);
    }

    /** Lines 12-239: a site event puts a new arc for its site on the beach
        line. The descent of FindArcs picks the place; the new node goes
        right after leftNode (first when leftNode is -1); then the arc it
        lands in is split, or it starts a colinear edge pair at the right
        end, or it closes the breakpoint it lands on. */
    method AddBeachArc(fortuneEvent: FortuneEvent, num: Numerics)
      returns (o: Outcome, ghost leftNode: int, ghost rightNode: int, ghost at: int)
      requires Valid() && 0 <= fortuneEvent.site < |sites|
      modifies this, tree, tree.value, tree.left, tree.right, tree.parent, tree.previous, tree.next, tree.red,
               heap, heap.events
      ensures old(tree.root) == -1 <==> leftNode == -1 && rightNode == -1
      ensures old(tree.root) != -1 ==>
        var s := sites[fortuneEvent.site];
        old(OnLine(at)) && old(Found(at, s.x, s.y, num.sqrt, leftNode, rightNode))
      ensures leftNode == -1 || old(OnLine(leftNode))
      ensures o.Pass? ==> Valid()
      ensures o.Pass? && leftNode != -1 && leftNode == rightNode ==>
        var k, n := old(tree.pos[leftNode]) + 1, old(tree.count);
        tree.sq == old(tree.sq)[..k] + [n, n + 1] + old(tree.sq)[k..] &&
        arcSites == old(arcSites) + [fortuneEvent.site] + [old(arcSites[leftNode])]
      ensures o.Pass? && (leftNode == -1 || leftNode != rightNode) ==>
        var k, n := old(After(leftNode)), old(tree.count);
        tree.sq == old(tree.sq)[..k] + [n] + old(tree.sq)[k..] &&
        arcSites == old(arcSites) + [fortuneEvent.site]
      ensures o.Pass? ==> |edges| == old(|edges|) + (if leftNode == -1 then 0 else 2)
    {
      var site := fortuneEvent.site;
      var x := sites[site].x;
      var directrix := sites[site].y;
      var ln, rn, a := FindArcs(x, directrix, num.sqrt);
      leftNode, rightNode, at := ln, rn, a;
      if ln < 0 {
        var newNode;
        o, newNode := Grow(ln, site);
      } else if ln == rn {
        o := SplitCase(ln, site, x, directrix, num);
      } else if rn < 0 {
        o := ColinearCase(ln, site);
      } else {
        o := BreakpointCase(ln, rn, site, num);
      }
    }

    /** Lines 100-106 and 118-159: the new arc splits the arc at leftNode. */
    method SplitCase(leftNode: int, site: int, x: real, directrix: real, num: Numerics) returns (o: Outcome)
      requires Valid() && 0 <= site < |sites| && OnLine(leftNode)
      requires sites[arcSites[leftNode]].y != directrix
      modifies this, tree, tree.value, tree.left, tree.right, tree.parent, tree.previous, tree.next, tree.red,
               heap, heap.events
      ensures o.Pass? ==> Valid()
      ensures o.Pass? ==>
        var k, n := old(tree.pos[leftNode]) + 1, old(tree.count);
        tree.sq == old(tree.sq)[..k] + [n, n + 1] + old(tree.sq)[k..] &&
        arcSites == old(arcSites) + [site] + [old(arcSites[leftNode])]
      ensures o.Pass? ==>
        var a := sites[old(arcSites[leftNode])];
        var start := Vec2(x, EvalParabola(a.x, a.y, directrix, x));
        var e := |old(edges)|;
        edges == old(edges) + [FromSitesWithNeighbor(start, site, old(arcSites[leftNode]), e + 1, sitesMap).value] +
                             [FromSites(start, old(arcSites[leftNode]), site, sitesMap).value] &&
        edgesEnds == old(edgesEnds) + [Unset] + [Unset] &&
        arcEdges == old(arcEdges) + [e] + [e + 1]
    {
      ghost var q, k := tree.sq, tree.pos[leftNode] + 1;
      assert leftNode in q;
      var newNode;
      o, newNode := Grow(leftNode, site);
      if o.Fail? {
        return;
      }
      Settled(q, k, newNode, leftNode, leftNode);
      var rightNode;
      o, rightNode := SplitArc(leftNode, newNode, site, x, directrix, num);
      if o.Pass? {
        InsertNext(q, k, newNode, rightNode);
        SetAppended(old(arcEdges), |old(edges)|);
      }
    }

    /** Lines 100-106 and 164-180: the new arc goes right of the last arc.
        No event is cancelled and no circle is checked: the queue, the
        deleted ids and the id counter are outside the frame, and the new
        arc has no pending event. */
    method ColinearCase(leftNode: int, site: int) returns (o: Outcome)
      requires Valid() && 0 <= site < |sites| && OnLine(leftNode)
      modifies this`arcSites, this`arcEdges, this`arcEvents, this`edges, this`edgesEnds,
               tree, tree.value, tree.left, tree.right, tree.parent, tree.previous, tree.next, tree.red
      ensures o.Pass? ==> Valid()
      ensures o.Pass? ==> arcEvents == old(arcEvents) + [NullArc]
      ensures o.Pass? ==>
        var k, n := old(tree.pos[leftNode]) + 1, old(tree.count);
        tree.sq == old(tree.sq)[..k] + [n] + old(tree.sq)[k..] && arcSites == old(arcSites) + [site]
      ensures o.Pass? ==>
        var a := sites[old(arcSites[leftNode])];
        var start := Vec2((a.x + sites[site].x) / 2.0, FloatMin);
        var e := |old(edges)|;
        edges == old(edges) + [FromSitesWithNeighbor(start, site, old(arcSites[leftNode]), e + 1, sitesMap).value] +
                             [FromSites(start, old(arcSites[leftNode]), site, sitesMap).value] &&
        edgesEnds == old(edgesEnds) + [Unset] + [Unset] && arcEdges == old(arcEdges) + [e]
    {
      var newNode;
      o, newNode := Grow(leftNode, site);
      if o.Fail? {
        return;
      }
      o := StartColinear(leftNode, newNode, site);
      if o.Pass? {
        SetAppended(old(arcEdges), |old(edges)|);
      }
    }

    /** Lines 100-106 and 185-238: the new arc lands on the breakpoint between
        leftNode and rightNode. */
    method BreakpointCase(leftNode: int, rightNode: int, site: int, num: Numerics) returns (o: Outcome)
      requires Valid() && 0 <= site < |sites| && OnLine(leftNode) && OnLine(rightNode)
      requires leftNode != rightNode
      modifies this, tree, tree.value, tree.left, tree.right, tree.parent, tree.previous, tree.next, tree.red,
               heap, heap.events
      ensures o.Pass? ==> Valid() && 0 <= old(arcEdges[rightNode]) < |old(edgesEnds)|
      ensures o.Pass? ==>
        var k, n := old(After(leftNode)), old(tree.count);
        tree.sq == old(tree.sq)[..k] + [n] + old(tree.sq)[k..] && arcSites == old(arcSites) + [site]
      ensures o.Pass? ==>
        var vertex := Circumcenter(Point(sites[old(arcSites[leftNode])]), Point(sites[site]),
                                   Point(sites[old(arcSites[rightNode])]), num);
        var e := |old(edges)|;
        edges == old(edges) + [FromSites(vertex, site, old(arcSites[leftNode]), sitesMap).value] +
                             [FromSites(vertex, old(arcSites[rightNode]), site, sitesMap).value] &&
        edgesEnds == old(edgesEnds)[old(arcEdges[rightNode]) := vertex] + [Unset] + [Unset] &&
        arcEdges == old(arcEdges)[rightNode := e + 1] + [e]
    {
      ghost var q, k := tree.sq, tree.pos[leftNode] + 1;
      assert leftNode in q && rightNode in q;
      var newNode;
      o, newNode := Grow(leftNode, site);
      if o.Fail? {
        return;
      }
      Settled(q, k, newNode, leftNode, rightNode);
      o := CloseBreakpoint(leftNode, rightNode, newNode, site, num, old(arcSites), old(arcEdges), |old(edges)|);
    }
  
    // -------------------------------------------------------------------
    // RemoveBeachArc (lines 241-350).

    /** What RemoveBeachArc needs of the circle event it handles: the event
        is the one its arc records, and EventPop took the only queued event
        with its id. */
    ghost predicate Handles(e: FortuneEvent)
      reads this`arcEvents, heap, heap.events
    {
      !e.isSiteEvent && e.id > 0 && 0 <= e.node < |arcEvents| && arcEvents[e.node] == FromEvent(e) &&
      0 <= heap.count <= heap.events.Length && NoneQueued(heap.Contents(), e.id)
    }

    /** Lines 262-294: the neighbours whose pending events collapse with the
        handled one are listed, the left run from right to left and then the
        right run from left to right; prev and next are the first neighbours
        that do not collapse. A collapsing arc has a record, so it is
        interior and neither walk runs off the beach line (the source would
        index slot -1 there). The list never outgrows its capacity of
        treeCount entries. */
    method Collect(e: FortuneEvent, ghost q: seq<int>, ghost k: int, ghost records: seq<FortuneEventArc>)
      returns (prev: int, next: int, removed: seq<int>, ghost lo: int, ghost hi: int)
      requires Arcs() && Handles(e) && OnLine(e.node) && RecordsInterior(arcEvents, tree.sq)
      requires LinedUp(tree.sq, tree.count, tree.previous[..], tree.next[..])
      requires q == tree.sq && k == tree.pos[e.node] && records == arcEvents
      ensures
        1 <= lo <= k < hi < |q| &&
        lo == LeftStop(q, records, e, k - 1) + 1 && hi == RightStop(q, records, e, k + 1) &&
        prev == q[lo - 1] && next == q[hi] &&
        |removed| == hi - lo - 1 && forall t :: 0 <= t < |removed| ==> removed[t] == q[RunPlace(lo, k, t)]
    {
      assert Recorded(arcEvents, e.node);
      prev, removed, lo := CollectLeft(e);
      next, removed, hi := CollectRight(e, removed, lo);
    }

    /** Lines 272-283: the walk to the left. */
    method CollectLeft(e: FortuneEvent) returns (prev: int, removed: seq<int>, ghost lo: int)
      requires Arcs() && 0 <= e.node < tree.count && OnLine(e.node) && Interior(tree.sq, e.node)
      requires RecordsInterior(arcEvents, tree.sq)
      requires LinedUp(tree.sq, tree.count, tree.previous[..], tree.next[..])
      ensures var q, k := tree.sq, tree.pos[e.node];
        1 <= lo <= k && lo == LeftStop(q, arcEvents, e, k - 1) + 1 && prev == q[lo - 1] &&
        |removed| == k - lo && forall t :: 0 <= t < |removed| ==> removed[t] == q[k - 1 - t]
    {
      var node := e.node;
      ghost var q, k := tree.sq, tree.pos[node];
      assert 0 < k && tree.previous[..][q[k]] == q[k - 1];
      prev := tree.previous[node];
      ghost var i := k - 1;
      var prevEvent := arcEvents[tree.value[prev]];
      removed := [];
      while Collapses(prevEvent, e)
        invariant 0 <= i < k && prev == q[i] && 0 <= prev < |arcEvents| && prevEvent == arcEvents[prev]
        invariant LeftStop(q, arcEvents, e, i) == LeftStop(q, arcEvents, e, k - 1)
        invariant |removed| == k - 1 - i && forall t :: 0 <= t < |removed| ==> removed[t] == q[k - 1 - t]
        decreases i
      {
        assert Recorded(arcEvents, prev);
        assert 0 < i;
        assert tree.previous[..][q[i]] == q[i - 1] && 0 <= q[i - 1] < tree.count;
        assert tree.value[..][q[i - 1]] == q[i - 1];
        removed := removed + [prev];
        prev := tree.previous[prev];
        i := i - 1;
        prevEvent := arcEvents[tree.value[prev]];
      }
      lo := i + 1;
    }

    /** Lines 285-294: the walk to the right, which carries on the list. */
    method CollectRight(e: FortuneEvent, left: seq<int>, ghost lo: int) returns (next: int, removed: seq<int>, ghost hi: int)
      requires Arcs() && 0 <= e.node < tree.count && OnLine(e.node) && Interior(tree.sq, e.node)
      requires RecordsInterior(arcEvents, tree.sq)
      requires LinedUp(tree.sq, tree.count, tree.previous[..], tree.next[..])
      requires var q, k := tree.sq, tree.pos[e.node];
        1 <= lo <= k && |left| == k - lo && forall t :: 0 <= t < |left| ==> left[t] == q[RunPlace(lo, k, t)]
      ensures var q, k := tree.sq, tree.pos[e.node];
        k < hi < |q| && hi == RightStop(q, arcEvents, e, k + 1) && next == q[hi] &&
        |removed| == hi - lo - 1 && forall t :: 0 <= t < |removed| ==> removed[t] == q[RunPlace(lo, k, t)]
    {
      var node := e.node;
      ghost var q, k := tree.sq, tree.pos[node];
      assert k < |q| - 1 && tree.next[..][q[k]] == q[k + 1];
      next := tree.next[node];
      ghost var j := k + 1;
      var nextEvent := arcEvents[tree.value[next]];
      removed := left;
      while Collapses(nextEvent, e)
        invariant k < j < |q| && next == q[j] && 0 <= next < |arcEvents| && nextEvent == arcEvents[next]
        invariant RightStop(q, arcEvents, e, j) == RightStop(q, arcEvents, e, k + 1)
        invariant |removed| == j - lo - 1 && forall t :: 0 <= t < |removed| ==> removed[t] == q[RunPlace(lo, k, t)]
        decreases |q| - j
      {
        assert Recorded(arcEvents, next);
        assert j < |q| - 1;
        assert tree.next[..][q[j]] == q[j + 1] && 0 <= q[j + 1] < tree.count;
        assert tree.value[..][q[j + 1]] == q[j + 1];
        removed := removed + [next];
        next := tree.next[next];
        j := j + 1;
        nextEvent := arcEvents[tree.value[next]];
      }
      hi := j;
    }
  
    /** Lines 262-330: the walks find the run [lo, hi) around the handled
        arc at place k (Collect), then the edges end at v and the records
        are cleared (CloseRun). */
    method Unlink(e: FortuneEvent, v: Vec2, ghost q: seq<int>, ghost ends0: seq<Vec2>,
                  ghost records0: seq<FortuneEventArc>, ghost deleted0: set<int>, ghost edges0: seq<int>)
      returns (o: Outcome, prev: int, next: int, removed: seq<int>, ghost k: int, ghost lo: int, ghost hi: int)
      requires Valid() && Handles(e)
      requires q == tree.sq && ends0 == edgesEnds && records0 == arcEvents && deleted0 == deleted && edges0 == arcEdges
      modifies this`edgesEnds, this`arcEvents, this`deleted
      ensures Valid() && Placed(q, tree.pos) && tree.sq == q
      ensures Walked(q, records0, e, k, lo, hi) && prev == q[lo - 1] && next == q[hi]
      ensures |removed| == hi - lo - 1 && forall t :: 0 <= t < |removed| ==> removed[t] == q[RunPlace(lo, k, t)]
      ensures o.Pass? <==> -1 !in EdgesAt(edges0, q, Span(lo, hi))
      ensures o.Pass? ==>
        EndsAt(edgesEnds, ends0, EdgesAt(edges0, q, Span(lo, hi)), v) &&
        ClearedAt(arcEvents, records0, ArcsAt(q, Span(lo - 1, hi))) &&
        deleted == deleted0 + IdsOf(records0, ArcsAt(q, Span(lo - 1, hi) - {k}))
    {
      HandledOnLine(e);
      k := tree.pos[e.node];
      prev, next, removed, lo, hi := Collect(e, q, k, records0);
      o := CloseRun(e, prev, next, removed, v, lo, hi, q, k, ends0, records0, deleted0, edges0);
      assert TreeSound(1); // the tree is outside CloseRun's frame
    }

    /** Lines 296-330 on the fields (BeachRun.EndRun): the ends of the
        edges of every arc from place lo to hi become the vertex v, the
        records of every arc from lo - 1 to hi are cleared and the ids of
        all but the handled arc's go into `deleted`. */
    method CloseRun(e: FortuneEvent, prev: int, next: int, removed: seq<int>, v: Vec2, ghost lo: int, ghost hi: int,
                    ghost q: seq<int>, ghost k: int, ghost ends0: seq<Vec2>, ghost records0: seq<FortuneEventArc>,
                    ghost deleted0: set<int>, ghost edges0: seq<int>)
      returns (o: Outcome)
      requires Lists() && Handles(e) && OnLine(e.node) && Placed(tree.sq, tree.pos)
      requires LinedUp(tree.sq, tree.count, tree.previous[..], tree.next[..])
      requires q == tree.sq && k == tree.pos[e.node] && ends0 == edgesEnds && records0 == arcEvents && deleted0 == deleted && edges0 == arcEdges
      requires 1 <= lo <= k < hi < |q| &&
        lo == LeftStop(q, records0, e, k - 1) + 1 && hi == RightStop(q, records0, e, k + 1) &&
        prev == q[lo - 1] && next == q[hi] &&
        |removed| == hi - lo - 1 && forall t :: 0 <= t < |removed| ==> removed[t] == q[RunPlace(lo, k, t)]
      modifies this`edgesEnds, this`arcEvents, this`deleted
      ensures Lists()
      ensures o.Pass? <==> -1 !in EdgesAt(edges0, q, Span(lo, hi))
      ensures o.Pass? ==>
        EndsAt(edgesEnds, ends0, EdgesAt(edges0, q, Span(lo, hi)), v) &&
        ClearedAt(arcEvents, records0, ArcsAt(q, Span(lo - 1, hi))) &&
        deleted == deleted0 + IdsOf(records0, ArcsAt(q, Span(lo - 1, hi) - {k}))
    {
      Unseal();
      var value, nexts := tree.value[..], tree.next[..];
      var o', ends', records', deleted' := CloseRunOn(edgesEnds, arcEvents, deleted, arcEdges, value, nexts, e,
                                                     prev, next, removed, v, q, tree.pos, tree.count,
                                                     tree.previous[..], k, lo, hi, arcCapacity, arcSites, |edges|,
                                                     edgesCapacity, heap.Contents(), eventIdSeq, |sites|);
      o := o';
      if o.Pass? {
        Store(ends', records', deleted');
      } else {
        Seal();
      }
    }

    /** The new edge ends, records and `deleted` ids, which keep the
        bookkeeping of the sweep, take the place of the old ones. */
    method Store(ends: seq<Vec2>, records: seq<FortuneEventArc>, ids: set<int>)
      requires SitesKnown() && 0 <= heap.count <= heap.events.Length && heap.Valid()
      requires ArcsOk(tree.value[..], tree.count, arcCapacity, arcSites, arcEdges, records, |sites|)
      requires EdgesOk(|edges|, |ends|, edgesCapacity, arcEdges)
      requires Tracked(records, tree.sq, heap.Contents(), ids, eventIdSeq, |sites|)
      modifies this`edgesEnds, this`arcEvents, this`deleted
      ensures Lists() && edgesEnds == ends && arcEvents == records && deleted == ids
    {
      edgesEnds, arcEvents, deleted := ends, records, ids;
      Seal();
    }

    /** Lines 338-342, one node: an arc without a pending event leaves the
        inside of the beach line. */
    method RemoveArc(x: int, ghost p: int)
      requires Valid() && 1 <= p < |tree.sq| - 1 && tree.sq[p] == x && !Recorded(arcEvents, x)
      modifies tree, tree.left, tree.right, tree.parent, tree.previous, tree.next, tree.red
      ensures Valid() && tree.sq == old(tree.sq)[..p] + old(tree.sq)[p + 1..]
    {
      Unseal();
      Unfold();
      PlaceOf(tree.St(), p);
      TrackedDrop(arcEvents, tree.sq, heap.Contents(), deleted, eventIdSeq, |sites|, p);
      tree.RemoveTreeNode(x);
      Fold();
      Seal();
    }

    /** Lines 338-342: the handled node at place k, then the listed nodes of
        the run, leave the tree, which takes the places lo to hi - 1 out of
        the beach line q. None of them has a pending event any more. */
    method RemoveRun(node: int, removed: seq<int>, ghost q: seq<int>, ghost lo: int, ghost k: int, ghost hi: int)
      requires Valid() && q == tree.sq && 1 <= lo <= k < hi < |q| && q[k] == node
      requires |removed| == hi - lo - 1 && forall t :: 0 <= t < |removed| ==> removed[t] == q[RunPlace(lo, k, t)]
      requires forall p :: lo <= p < hi ==> !Recorded(arcEvents, q[p])
      modifies tree, tree.left, tree.right, tree.parent, tree.previous, tree.next, tree.red
      ensures Valid() && tree.sq == q[..lo] + q[hi..]
    {
      RemoveArc(node, k);
      ghost var l, h := k, k + 1;
      var t := 0;
      while t < |removed|
        invariant 0 <= t <= |removed| && Valid()
        invariant l == (if t <= k - lo then k - t else lo) && h == (if t <= k - lo then k + 1 else t + lo + 1)
        invariant tree.sq == q[..l] + q[h..]
      {
        ghost var at := if t < k - lo then l - 1 else l;
        if t < k - lo {
          RunGrowLeft(q, l, h);
        } else {
          RunGrowRight(q, l, h);
        }
        RemoveArc(removed[t], at);
        if t < k - lo {
          l := l - 1;
        } else {
          h := h + 1;
        }
        t := t + 1;
      }
    }

    /** Lines 332-335: a new edge starts at v, with next's site on its left
        and prev's on its right, and the arc next takes it as its edge.
        AddNoResize throws on a full list. */
    method JoinEdge(prev: int, next: int, v: Vec2, ghost edges0: seq<VEdge>, ghost arcEdges0: seq<int>,
                    ghost ends0: seq<Vec2>)
      returns (o: Outcome)
      requires Lists() && 0 <= prev < |arcSites| && 0 <= next < |arcSites|
      requires edges0 == edges && arcEdges0 == arcEdges && ends0 == edgesEnds
      modifies this`edges, this`edgesEnds, this`arcEdges
      ensures Lists()
      ensures o.Pass? <==> |edges0| < edgesCapacity
      ensures o.Pass? ==>
        Joined(edges, edges0, v, arcSites, next, prev, sitesMap) && edgesEnds == ends0 + [Unset] &&
        Reassigned(arcEdges, arcEdges0, next, |edges0|)
      ensures o.Fail? ==> edges == edges0 && edgesEnds == ends0 && arcEdges == arcEdges0
    {
      Unseal();
      var edge := |edges|;
      o := AddEdge(FromSites(v, arcSites[next], arcSites[prev], sitesMap).value);
      if o.Fail? {
        return;
      }
      SetArcEdge(next, edge);
      assert edges[..|edges0|] == edges0;
    }

    /** What the walks and the removal read of a sweep that handles e: the
        handled arc, which has a record, is on the beach line, every arc with
        a record is interior, the links agree with the line and pos inverts
        it. */
    lemma HandledOnLine(e: FortuneEvent)
      requires Valid() && Handles(e)
      ensures OnLine(e.node) && Interior(tree.sq, e.node) && RecordsInterior(arcEvents, tree.sq)
      ensures Placed(tree.sq, tree.pos) && LinedUp(tree.sq, tree.count, tree.previous[..], tree.next[..])
    {
      Unseal();
      Unfold();
      assert Recorded(arcEvents, e.node);
      InLineLive(tree.St(), e.node);
      LinedUpOf(tree.St());
      forall i | 0 <= i < |tree.sq|
        ensures 0 <= tree.sq[i] < |tree.pos| && tree.pos[tree.sq[i]] == i
      {
        PlaceOf(tree.St(), i);
      }
    }

    /** After CloseRun no arc from place lo - 1 to hi has a pending event. */
    lemma Uncharged(q: seq<int>, lo: int, hi: int, records0: seq<FortuneEventArc>)
      requires TreeSound(1) && Arcs() && q == tree.sq && 1 <= lo <= hi < |q|
      requires ClearedAt(arcEvents, records0, ArcsAt(q, Span(lo - 1, hi)))
      ensures forall p :: lo - 1 <= p <= hi ==> !Recorded(arcEvents, q[p])
      ensures RunCleared(arcEvents, q, lo, hi)
    {
      forall p | lo - 1 <= p <= hi
        ensures !Recorded(arcEvents, q[p])
      {
        InTree(q[p], p);
        ClearedNone(arcEvents, records0, q, lo - 1, hi, p);
      }
    }

    /** An arc on the beach line is a node of the tree. */
    lemma InTree(a: int, p: int)
      requires TreeSound(1) && 0 <= p < |tree.sq| && tree.sq[p] == a
      ensures 0 <= a < tree.count
    {
      Unfold();
      PlaceOf(tree.St(), p);
    }

    /** Two neighbours on the beach line are distinct nodes of the tree. */
    lemma Adjacent(a: int, b: int, p: int)
      requires TreeSound(1) && 0 <= p < |tree.sq| - 1 && tree.sq[p] == a && tree.sq[p + 1] == b
      ensures Around(a) && Around(b) && a != b
    {
      Unfold();
      PlaceOf(tree.St(), p);
      PlaceOf(tree.St(), p + 1);
      LiveNeighboured(tree.St(), a);
      LiveNeighboured(tree.St(), b);
    }

    /** Lines 241-350: the circle event e is handled. Its vertex, the centre
        of the circle, ends the edges of the handled arc, of every neighbour
        whose pending event collapses with it and of next; the pending
        events of all of them and of prev are cancelled (the handled one has
        left the queue already); a new edge starts at the vertex between
        next and prev; the run of arcs from place lo to hi - 1 leaves the
        beach line; and circle events are checked for prev and then next.
        Fails, as the source throws, when one of the ended arcs has no edge,
        the edge list is full or the queue is. */
    method RemoveBeachArc(e: FortuneEvent, num: Numerics) returns (o: Outcome, ghost lo: int, ghost k: int, ghost hi: int)
      requires Valid() && Handles(e)
      modifies this`edges, this`edgesEnds, this`arcEdges, this`arcEvents, this`deleted, this`eventIdSeq,
               tree, tree.left, tree.right, tree.parent, tree.previous, tree.next, tree.red, heap, heap.events
      ensures o.Pass? ==> Valid()
      ensures Walked(old(tree.sq), old(arcEvents), e, k, lo, hi)
      ensures o.Pass? ==> -1 !in EdgesAt(old(arcEdges), old(tree.sq), Span(lo, hi)) && old(|edges|) < edgesCapacity
      ensures o.Pass? ==> var q, v := old(tree.sq), Vec2(e.x, e.yCenter);
        tree.sq == q[..lo] + q[hi..] &&
        deleted == old(deleted) + IdsOf(old(arcEvents), ArcsAt(q, Span(lo - 1, hi) - {k})) &&
        Joined(edges, old(edges), v, arcSites, q[hi], q[lo - 1], sitesMap) &&
        Ended(edgesEnds, old(edgesEnds), EdgesAt(old(arcEdges), q, Span(lo, hi)), v) &&
        Reassigned(arcEdges, old(arcEdges), q[hi], |old(edges)|) &&
        RunCleared(arcEvents, q, lo, hi)
    {
      ghost var q, records0, edges0, arcEdges0, ends0, deleted0 := tree.sq, arcEvents, edges, arcEdges, edgesEnds, deleted;
      var vertex := Vec2(e.x, e.yCenter);
      var prev, next, removed;
      o, prev, next, removed, k, lo, hi := Unlink(e, vertex, q, ends0, records0, deleted0, arcEdges0);
      if o.Fail? {
        return;
      }
      o := Finish(e.node, prev, next, removed, vertex, num, q, k, lo, hi, records0, edges0, arcEdges0, ends0,
                  EdgesAt(arcEdges0, q, Span(lo, hi)), deleted0 + IdsOf(records0, ArcsAt(q, Span(lo - 1, hi) - {k})));
    }

    /** Lines 332-349, after the edges have ended and the records are
        cleared: the new edge for next, the run leaving the tree, and the
        circle checks for prev and next. */
    method Finish(node: int, prev: int, next: int, removed: seq<int>, v: Vec2, num: Numerics,
                  ghost q: seq<int>, ghost k: int, ghost lo: int, ghost hi: int, ghost records0: seq<FortuneEventArc>,
                  ghost edges0: seq<VEdge>, ghost arcEdges0: seq<int>, ghost ends0: seq<Vec2>, ghost w: set<int>,
                  ghost ids: set<int>)
      returns (o: Outcome)
      requires Valid() && q == tree.sq && 1 <= lo <= k < hi < |q| && q[k] == node && q[lo - 1] == prev && q[hi] == next
      requires Placed(q, tree.pos)
      requires |removed| == hi - lo - 1 && forall t :: 0 <= t < |removed| ==> removed[t] == q[RunPlace(lo, k, t)]
      requires ClearedAt(arcEvents, records0, ArcsAt(q, Span(lo - 1, hi)))
      requires edges0 == edges && arcEdges0 == arcEdges && EndsAt(edgesEnds, ends0, w, v) && deleted == ids
      modifies this`edges, this`edgesEnds, this`arcEdges, this`arcEvents, this`eventIdSeq,
               tree, tree.left, tree.right, tree.parent, tree.previous, tree.next, tree.red, heap, heap.events
      ensures o.Pass? ==> Valid() && |edges0| < edgesCapacity
      ensures deleted == ids
      ensures o.Pass? ==>
        tree.sq == q[..lo] + q[hi..] && Joined(edges, edges0, v, arcSites, q[hi], q[lo - 1], sitesMap) &&
        Ended(edgesEnds, ends0, w, v) && Reassigned(arcEdges, arcEdges0, q[hi], |edges0|) &&
        RunCleared(arcEvents, q, lo, hi)
    {
      Uncharged(q, lo, hi, records0);
      InTree(prev, lo - 1);
      InTree(next, hi);
      ghost var ends1 := edgesEnds;
      o := JoinEdge(prev, next, v, edges0, arcEdges0, ends1);
      if o.Fail? {
        return;
      }
      EndedOf(edgesEnds, ends1, ends0, w, v);
      o := Settle(node, prev, next, removed, num, q, k, lo, hi, edges, edgesEnds, arcEdges);
    }

    /** Lines 338-349: the run leaves the tree, and circle events are
        checked for prev and then next. The edge lists stay as they are. */
    method Settle(node: int, prev: int, next: int, removed: seq<int>, num: Numerics,
                  ghost q: seq<int>, ghost k: int, ghost lo: int, ghost hi: int,
                  ghost edges1: seq<VEdge>, ghost ends1: seq<Vec2>, ghost arcEdges1: seq<int>)
      returns (o: Outcome)
      requires Valid() && q == tree.sq && 1 <= lo <= k < hi < |q| && q[k] == node && q[lo - 1] == prev && q[hi] == next
      requires Placed(q, tree.pos)
      requires |removed| == hi - lo - 1 && forall t :: 0 <= t < |removed| ==> removed[t] == q[RunPlace(lo, k, t)]
      requires forall p :: lo - 1 <= p <= hi ==> !Recorded(arcEvents, q[p])
      requires RunCleared(arcEvents, q, lo, hi)
      requires edges1 == edges && ends1 == edgesEnds && arcEdges1 == arcEdges
      modifies this`arcEvents, this`eventIdSeq,
               tree, tree.left, tree.right, tree.parent, tree.previous, tree.next, tree.red, heap, heap.events
      ensures o.Pass? ==> Valid()
      ensures edges == edges1 && edgesEnds == ends1 && arcEdges == arcEdges1
      ensures tree.sq == q[..lo] + q[hi..] && RunCleared(arcEvents, q, lo, hi)
    {
      ghost var pos := tree.pos;
      RemoveRun(node, removed, q, lo, k, hi);
      Adjacent(prev, next, lo - 1);
      ghost var records1 := arcEvents;
      assert !Recorded(arcEvents, prev) && !Recorded(arcEvents, next);
      o := CheckBoth(prev, next, num);
      RunClearedKeep(records1, arcEvents, q, pos, lo, hi);
    }

    /** Lines 57-63 of Assets/Voronoi/Jobs/FortunesWithConvexHull.cs, the
        queue half, then lines 65-73: every tree slot becomes -1, which
        makes the empty tree, and the sweep's invariant holds. */
    method Seed() returns (o: Outcome)
      requires tree.Arrays() && tree.value.Length == arcCapacity && tree.count == 0
      requires heap.Valid() && heap.count == 0 && 0 <= edgesCapacity
      requires arcSites == [] && arcEdges == [] && arcEvents == [] && edges == [] && edgesEnds == []
      requires deleted == {} && eventIdSeq == 0
      requires forall i :: 0 <= i < |sites| ==> i in sitesMap
      modifies this`eventIdSeq, heap, heap.events, tree, tree.value, tree.left, tree.right, tree.parent,
               tree.previous, tree.next
      ensures o.Pass? <==> |sites| <= heap.events.Length
      ensures o.Pass? ==>
        Valid() && tree.sq == [] && eventIdSeq == |sites| && heap.Contents() == multiset(SiteEventsOf(sites, |sites|))
    {
      o := SeedQueue();
      if o.Fail? {
        return;
      }
      tree.Reset();
      Fold();
      SeededTracked(sites);
      assert Arcs() && SitesKnown() && heap.Valid() && EdgeLists();
      Seal();
    }

    /** Lines 57-63, the queue half: site i gets the site event with id i.
        EventInsert throws if the event array is shorter than the site
        list. */
    method SeedQueue() returns (o: Outcome)
      requires heap.Valid() && heap.count == 0 && eventIdSeq == 0
      modifies this`eventIdSeq, heap, heap.events
      ensures o.Pass? <==> |sites| <= heap.events.Length
      ensures heap.Valid()
      ensures o.Pass? ==>
        eventIdSeq == |sites| && heap.count == |sites| && heap.Contents() == multiset(SiteEventsOf(sites, |sites|))
    {
      o := Pass;
      var i := 0;
      while i < |sites|
        invariant 0 <= i <= |sites| && eventIdSeq == i && o.Pass?
        invariant heap.Valid() && heap.count == i
        invariant heap.Contents() == multiset(SiteEventsOf(sites, i))
      {
        var s := SiteEvent(eventIdSeq, i, sites[i].x, sites[i].y);
        o := heap.EventInsert(s.event);
        if o.Fail? {
          return;
        }
        assert SiteEventsOf(sites, i + 1) == SiteEventsOf(sites, i) + [s.event];
        assert multiset(SiteEventsOf(sites, i + 1)) == multiset(SiteEventsOf(sites, i)) + multiset{s.event};
        eventIdSeq := s.nextId;
        i := i + 1;
      }
    }

    /** Line 77: the first event leaves the queue. A site event names a
        site of the chunk; a circle event whose id is not in `deleted` is
        one RemoveBeachArc can handle; one whose id is in `deleted` is no
        longer queued under that id. */
    method Pop() returns (r: Result<FortuneEvent>)
      requires Valid()
      modifies heap, heap.events
      ensures r.Err? <==> old(heap.count) == 0
      ensures r.Ok? ==> Valid() && heap.count == old(heap.count) - 1
      ensures r.Ok? ==> r.value in old(heap.Contents())
      ensures r.Ok? ==> forall e :: e in old(heap.Contents()) ==> !LeftLessThanRight(e, r.value)
      ensures r.Ok? && r.value.isSiteEvent ==> 0 <= r.value.site < |sites|
      ensures r.Ok? && !r.value.isSiteEvent && r.value.id !in deleted ==> Handles(r.value)
      ensures r.Ok? && !r.value.isSiteEvent && r.value.id in deleted ==> NoneQueued(heap.Contents(), r.value.id)
    {
      Unseal();
      ghost var queued := heap.Contents();
      r := heap.EventPop();
      if r.Ok? {
        TrackedPop(arcEvents, tree.sq, queued, deleted, eventIdSeq, |sites|, r.value);
        Seal();
      }
    }

    /** Line 86: a cancelled circle event is dropped and its id leaves
        `deleted`. */
    method Discard(e: FortuneEvent)
      requires Valid() && e.id in deleted && NoneQueued(heap.Contents(), e.id)
      modifies this`deleted
      ensures Valid() && deleted == old(deleted) - {e.id}
    {
      Unseal();
      TrackedDiscard(arcEvents, tree.sq, heap.Contents(), deleted, eventIdSeq, |sites|, e);
      deleted := deleted - {e.id};
      Seal();
    }
  }
}
