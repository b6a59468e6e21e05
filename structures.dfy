/** The value records of the sweep (Assets/Voronoi/Structures): edges,
    sites, queue events and the event reference an arc keeps. */
module Edges {
  import opened VGeometry
  import opened Wrappers

  /** VEdge: an edge, or a half-edge of a pair, between the regions of the
      sites at indexes `left` and `right`; `neighbor` is the index of the
      twin half-edge, -1 when there is none. */
  datatype VEdge = VEdge(start: Vec2, end: Vec2, left: int, right: int, neighbor: int)

  /** VEdge.Null. */
  const Null: VEdge := Segment(Zero, Zero, -1, -1)

  /** The constructor taking a neighbour: both site ids are translated to
      indexes through `sitesMap`, whose indexer throws on a missing key. */
  function FromSitesWithNeighbor(start: Vec2, leftSite: int, rightSite: int, neighbor: int,
                                 sitesMap: map<int, int>): (r: Result<VEdge>)
    ensures r.Ok? <==> leftSite in sitesMap && rightSite in sitesMap
    ensures r.Ok? ==> r.value.start == start && r.value.end == Zero
    ensures r.Ok? ==> r.value.left == sitesMap[leftSite] && r.value.right == sitesMap[rightSite]
    ensures r.Ok? ==> r.value.neighbor == neighbor
  {
    if leftSite !in sitesMap || rightSite !in sitesMap then Err("key not present in the hash map")
    else Ok(VEdge(start, Zero, sitesMap[leftSite], sitesMap[rightSite], neighbor))
  }

  /** The constructor without a neighbour. */
  function FromSites(start: Vec2, leftSite: int, rightSite: int, sitesMap: map<int, int>): (r: Result<VEdge>)
    ensures r.Ok? <==> leftSite in sitesMap && rightSite in sitesMap
    ensures r.Ok? ==> r.value.start == start && r.value.end == Zero
    ensures r.Ok? ==> r.value.left == sitesMap[leftSite] && r.value.right == sitesMap[rightSite]
    ensures r.Ok? ==> r.value.neighbor == -1
  {
    FromSitesWithNeighbor(start, leftSite, rightSite, -1, sitesMap)
  }

  /** The four point constructors (float and double endpoints alike, since
      coordinates are reals here) never set a neighbour. */
  function Segment(start: Vec2, end: Vec2, left: int, right: int): (r: VEdge)
    ensures r.start == start && r.end == end && r.left == left && r.right == right
    ensures r.neighbor == -1
  {
    VEdge(start, end, left, right, -1)
  }

  /** VEdge.IsEqual: the same ordered pair of sites, whatever the points and
      the neighbour. */
  function IsEqual(a: VEdge, b: VEdge): (r: bool)
    ensures r <==> a.left == b.left && a.right == b.right
  {
    a.left == b.left && a.right == b.right
  }

  /** operator ==. */
  function EqualityOperator(a: VEdge, b: VEdge): (r: bool)
    ensures r <==> a.left == b.left && a.right == b.right
  {
    IsEqual(a, b)
  }

  /** operator != as written: it returns IsEqual, not its negation. */
  function InequalityAsWritten(a: VEdge, b: VEdge): (r: bool)
    ensures r <==> EqualityOperator(a, b)
    ensures r <==> a.left == b.left && a.right == b.right
  {
    IsEqual(a, b)
  }

  /** operator != as evidently intended. */
  function InequalityOperator(a: VEdge, b: VEdge): (r: bool)
    ensures r <==> a.left != b.left || a.right != b.right
  {
    !IsEqual(a, b)
  }

  /** IsEqual is an equivalence on edges. */
  lemma IsEqualIsEquivalence(a: VEdge, b: VEdge, c: VEdge)
    ensures IsEqual(a, a)
    ensures IsEqual(a, b) ==> IsEqual(b, a)
    ensures IsEqual(a, b) && IsEqual(b, c) ==> IsEqual(a, c)
  {
  }

  /** Points and the neighbour play no part in IsEqual, and the reversed
      pair is a different edge unless both sides are the same site. */
  lemma IsEqualIgnoresGeometry(a: VEdge, start: Vec2, end: Vec2, neighbor: int)
    ensures IsEqual(a, VEdge(start, end, a.left, a.right, neighbor))
    ensures IsEqual(a, VEdge(start, end, a.right, a.left, neighbor)) <==> a.left == a.right
  {
  }

  /** The edge built with a neighbour and the one built without it join the
      same pair of sites. */
  lemma SiteConstructorsAgree(start: Vec2, leftSite: int, rightSite: int, neighbor: int, sitesMap: map<int, int>)
    requires leftSite in sitesMap && rightSite in sitesMap
    ensures IsEqual(FromSites(start, leftSite, rightSite, sitesMap).value,
                    FromSitesWithNeighbor(start, leftSite, rightSite, neighbor, sitesMap).value)
  {
  }

  /** The corrected operator is the negation of ==; the operator as written
      coincides with ==, so it claims that every edge differs from itself. */
  lemma InequalityIsNegation(a: VEdge, b: VEdge)
    ensures InequalityOperator(a, b) == !EqualityOperator(a, b)
    ensures InequalityAsWritten(a, b) == EqualityOperator(a, b)
  {
  }

  /** An input that shows the operator as written: Null != Null holds. */
  lemma NullUnequalToItselfAsWritten()
    ensures InequalityAsWritten(Null, Null)
    ensures !InequalityOperator(Null, Null)
  {
  }

  /** Null joins no site and has zero points and no neighbour. */
  lemma NullIsEmpty()
    ensures Null.left == -1 && Null.right == -1 && Null.neighbor == -1
    ensures Null.start == Zero && Null.end == Zero
  {
  }
}

module Sites {
  import opened VGeometry

  /** VSite: a site and its id. */
  datatype VSite = VSite(id: int, x: real, y: real)

  /** The constructor: the id is the index given. */
  function NewSite(index: int, point: Vec2): (r: VSite)
    ensures r.id == index && Point(r) == point
  {
    VSite(index, point.x, point.y)
  }

  /** VSite.Point. */
  function Point(s: VSite): (p: Vec2)
    ensures p.x == s.x && p.y == s.y
  {
    Vec2(s.x, s.y)
  }

  /** VSite.Equals: only the ids are compared. */
  function Equals(a: VSite, b: VSite): (r: bool)
    ensures r <==> a.id == b.id
  {
    a.id == b.id
  }

  /** operator ==. */
  function OperatorEq(a: VSite, b: VSite): (r: bool)
    ensures r <==> a.id == b.id
  {
    Equals(a, b)
  }

  /** operator !=. */
  function OperatorNeq(a: VSite, b: VSite): (r: bool)
    ensures r <==> a.id != b.id
  {
    !Equals(a, b)
  }

  /** VSite.CompareTo, which is Int32.CompareTo on the ids. */
  function CompareTo(a: VSite, b: VSite): (r: int)
    ensures r == -1 || r == 0 || r == 1
    ensures r < 0 <==> a.id < b.id
    ensures r == 0 <==> Equals(a, b)
  {
    if a.id < b.id then -1 else if a.id > b.id then 1 else 0
  }

  /** VSite.GetHashCode. */
  function GetHashCode(s: VSite): (h: int)
    ensures h == s.id
  {
    s.id
  }

  /** The constructor and Point round-trip. */
  lemma NewSiteRoundTrip(s: VSite)
    ensures NewSite(s.id, Point(s)) == s
  {
  }

  /** == and != are complementary. */
  lemma OperatorsComplementary(a: VSite, b: VSite)
    ensures OperatorNeq(a, b) == !OperatorEq(a, b)
    ensures OperatorEq(a, b) == Equals(a, b)
  {
  }

  /** Coordinates play no part in equality or hashing, and equal sites hash
      alike. */
  lemma EqualityIgnoresCoordinates(a: VSite, b: VSite, p: Vec2)
    ensures Equals(a, NewSite(a.id, p))
    ensures GetHashCode(NewSite(a.id, p)) == GetHashCode(a)
    ensures Equals(a, b) ==> GetHashCode(a) == GetHashCode(b)
  {
  }

  /** CompareTo is a total order that agrees with Equals. */
  lemma CompareToIsTotalOrder(a: VSite, b: VSite, c: VSite)
    ensures CompareTo(a, b) == -CompareTo(b, a)
    ensures CompareTo(a, b) <= 0 && CompareTo(b, c) <= 0 ==> CompareTo(a, c) <= 0
    ensures CompareTo(a, b) <= 0 || CompareTo(b, a) <= 0
  {
  }
}

module Events {
  import opened VGeometry
  import opened VMath

  /** ushort.MaxValue, the Site field of a circle event. */
  const UShortMax: int := 65535

  /** FortuneEvent: a site event (isSiteEvent) or a circle event closing
      the arc at tree node `node`. */
  datatype FortuneEvent = FortuneEvent(id: int, x: real, y: real, site: int, yCenter: real,
                                       node: int, isSiteEvent: bool)

  /** An event and the value its constructor leaves in the shared id
      counter (`ref int eventIdSeq`). */
  datatype Stamped = Stamped(event: FortuneEvent, nextId: int)

  /** The unchecked cast to ushort keeps the low 16 bits. */
  function ToUShort(v: int): (r: int)
    ensures 0 <= r <= UShortMax
    ensures (v - r) % 65536 == 0
    ensures 0 <= v <= UShortMax ==> r == v
  {
    v % 65536
  }

  /** The site event constructor. */
  function SiteEvent(eventIdSeq: int, siteIndex: int, siteX: real, siteY: real): (r: Stamped)
    ensures r.event.id == eventIdSeq && r.nextId == eventIdSeq + 1
    ensures r.event.isSiteEvent && r.event.node == -1 && r.event.yCenter == FloatMax
    ensures r.event.x == siteX && r.event.y == siteY
    ensures r.event.site == ToUShort(siteIndex)
  {
    Stamped(FortuneEvent(eventIdSeq, siteX, siteY, ToUShort(siteIndex), FloatMax, -1, true), eventIdSeq + 1)
  }

  /** The circle event constructor. */
  function CircleEvent(eventIdSeq: int, point: Vec2, yCenter: real, nodeIndex: int): (r: Stamped)
    ensures r.event.id == eventIdSeq && r.nextId == eventIdSeq + 1
    ensures !r.event.isSiteEvent && r.event.node == nodeIndex && r.event.site == UShortMax
    ensures r.event.x == point.x && r.event.y == point.y && r.event.yCenter == yCenter
  {
    Stamped(FortuneEvent(eventIdSeq, point.x, point.y, UShortMax, yCenter, nodeIndex, false), eventIdSeq + 1)
  }

  /** The ids of `events` strictly increase and stay below the counter. */
  predicate IdsIssuedBefore(events: seq<FortuneEvent>, next: int)
  {
    (forall i, j :: 0 <= i < j < |events| ==> events[i].id < events[j].id) &&
    (forall i :: 0 <= i < |events| ==> events[i].id < next)
  }

  /** Whatever the kind, an event built from the counter takes its value and
      moves it on by one. */
  predicate StampedFrom(s: Stamped, next: int)
  {
    s.event.id == next && s.nextId == next + 1
  }

  lemma ConstructorsStamp(next: int, siteIndex: int, p: Vec2, yCenter: real, node: int)
    ensures StampedFrom(SiteEvent(next, siteIndex, p.x, p.y), next)
    ensures StampedFrom(CircleEvent(next, p, yCenter, node), next)
  {
  }

  /** Events built one after another from one counter have strictly
      increasing, hence distinct, ids below the counter. */
  lemma StampKeepsIdsIssued(events: seq<FortuneEvent>, next: int, s: Stamped)
    requires IdsIssuedBefore(events, next) && StampedFrom(s, next)
    ensures IdsIssuedBefore(events + [s.event], s.nextId)
    ensures forall i :: 0 <= i < |events| ==> events[i].id != s.event.id
  {
  }

  /** Site indexes of 65536 and above wrap in the Site field. */
  lemma SiteIndexWraps(next: int, siteIndex: int, x: real, y: real)
    ensures SiteEvent(next, siteIndex + 65536, x, y).event.site == SiteEvent(next, siteIndex, x, y).event.site
    ensures SiteEvent(next, 65536, x, y).event.site == 0
  {
  }

  /** FortuneEventArc: the id and position of the circle event pending on an
      arc. */
  datatype FortuneEventArc = FortuneEventArc(id: int, x: real, y: real)

  /** FortuneEventArc.Exists. */
  function Exists(a: FortuneEventArc): (r: bool)
    ensures r <==> a.id > 0
  {
    a.id > 0
  }

  /** FortuneEventArc.Null. */
  const NullArc: FortuneEventArc := FortuneEventArc(-1, 0.0, 0.0)

  /** The constructor from an event. */
  function FromEvent(e: FortuneEvent): (r: FortuneEventArc)
    ensures r.id == e.id && r.x == e.x && r.y == e.y
  {
    FortuneEventArc(e.id, e.x, e.y)
  }

  /** Null does not exist, and a record made from an event exists iff the
      event's id is positive; in particular the event with id 0 gives a
      record that does not exist. */
  lemma ExistsCases(e: FortuneEvent)
    ensures !Exists(NullArc)
    ensures Exists(FromEvent(e)) <==> e.id > 0
    ensures e.id == 0 ==> !Exists(FromEvent(e))
  {
  }
}
