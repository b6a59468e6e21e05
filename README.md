# VoronoiUnityDOTS core, modelled in Dafny

VoronoiUnityDOTS builds the Voronoi diagram of a set of planar points for
Unity's job system. `Diagram.Build` numbers the points as sites, sorts them by
X and cuts them into a power-of-two number of chunks. Each chunk runs
Fortune's sweep (`FortunesWithConvexHull`) and its convex hull (Andrew's
monotone chain). Neighbouring results are then merged in rounds
(`VoronoiMerger`): the two hulls are joined at their upper and lower tangents,
and the dividing chain of new edges is walked from one tangent to the other.
The edges of either side that lie beyond the chain are cut or removed. The
final result is copied out as `Edges` and per-site `Regions`.

This project models that core and proves properties of the model:

- **Value types**: `VSite`, `VEdge`, `FortuneEvent` and `FortuneEventArc`
  (`structures.dfy`), and `StructList4` (`struct_array.dfy`).
- **Helpers**: `VMath` (`vmath.dfy`) and `VGeometry` (`vgeometry.dfy`). The
  `NativeMultiHashMap` region map and the hash maps are modelled as values
  (`collections.dfy`).
- **Event queue**: `MinHeap` (`min_heap.dfy`) is a class over an event array,
  with heap order and a multiset of contents.
- **Red-black tree**: `RedBlackTree.Tree` (`tree.dfy`) is a class over the
  seven node arrays. It stands for the three identical copies of the tree in
  the source. Its invariant (order, colours, black heights, links) and the
  in-order splice done by every insertion and removal are proved through the
  ghost state of `tree_state.dfy` and the transitions of the `tree_*.dfy`
  modules.
- **Beach line**: `BeachLine.SweepState` (`beach_line.dfy`) is the state of
  one sweep: tree, heap, arc lists, edge lists and the deleted-event set. It
  has the site and circle event handlers, circle checks and arc removal. The
  geometry is in `beach_geometry.dfy`, the collapse walks in
  `beach_remove.dfy`/`beach_run.dfy`, and the event bookkeeping in
  `beach_track.dfy`/`sweep_shape.dfy`.
- **One chunk's job**: `FortuneSweep` (`fortune.dfy`) covers the seeding, the
  event loop with lazy deletion, and the merge of half-edges with ray ends.
- **Hull**: `ConvexHull` (`convex_hull.dfy`) covers Andrew's monotone chain,
  the extreme points and the tangent merge.
- **Merge job**: `VoronoiMerge` (`merger.dfy`).
- **Driver**: `VoronoiDiagram` (`diagram.dfy`) covers the job count, the
  chunks, the rounds of merges and the copy out.

Failures the source reports by throwing or by writing outside a fixed
capacity are results of the model (`Result`, `Outcome`). They include a full
or empty heap, "no crossing", and an index outside a list.

The square root and the result of a single-precision division by zero (an
infinity or NaN) have no closed form over reals. They are given to the model
as parameters (the `Numerics` record in `beach_geometry.dfy`), not defined.

Four defects of the code are listed under "## Findings": the inequality
operator of edges, the ray-end intercept, the collapse test of arc removal,
and the fixed-size chunking.
Each is modelled twice: as written, with a proved input that shows the
defect, and as evidently intended. The sweep, the merge and the driver are
built on the intended versions, and "## Left out" names every member that
therefore differs from the program.

## Model

| member | source | states |
|---|---|---|
| VMath.ApproxEqual | Assets/Voronoi/Helpers/VMath.cs:29-32 | true exactly when the two values differ by at most Epsilon (float.Epsilon * 1e15) |
| VMath.ApproxGreaterThanOrEqualTo | Assets/Voronoi/Helpers/VMath.cs:39-42 | true exactly when value1 >= value2 - Epsilon |
| VMath.ApproxLessThanOrEqualTo | Assets/Voronoi/Helpers/VMath.cs:49-52 | true exactly when value1 <= value2 + Epsilon |
| VMath.EvalParabola | Assets/Voronoi/Helpers/VMath.cs:9-12 | right above the focus the parabola is halfway between focus and directrix |
| VMath.IntersectParabolaX | Assets/Voronoi/Helpers/VMath.cs:14-27 | foci at (approximately) equal height meet at the midpoint of their x |
| VMath.ApproxEqualReflexiveSymmetric | Assets/Voronoi/Helpers/VMath.cs:29-32 | the tolerant equality is reflexive and symmetric |
| VMath.ApproxOrdersAreDual | Assets/Voronoi/Helpers/VMath.cs:39-57 | approximate >= is approximate <= with the arguments swapped; approximately equal values satisfy both |
| VMath.EqualHeightBreakpointIsMidpoint | Assets/Voronoi/Helpers/VMath.cs:19-20 | with foci at one height the breakpoint is their midpoint whatever the directrix and square root |
| VMath.ParabolaSymmetric | Assets/Voronoi/Helpers/VMath.cs:9-12 | the parabola is symmetric about the vertical through its focus |
| Edges.FromSites | Assets/Voronoi/Structures/VEdge.cs:14-21 | succeeds exactly when both site ids are in the map; then the ends are translated through it, the end point is zero and there is no neighbour |
| Edges.FromSitesWithNeighbor | Assets/Voronoi/Structures/VEdge.cs:23-30 | as FromSites, keeping the given neighbour |
| Edges.Segment | Assets/Voronoi/Structures/VEdge.cs:32-66 | keeps both points and both region indexes, with no neighbour |
| Edges.IsEqual | Assets/Voronoi/Structures/VEdge.cs:79-82 | true exactly when both left and right indexes agree |
| Edges.EqualityOperator | Assets/Voronoi/Structures/VEdge.cs:68-71 | operator == is IsEqual |
| Edges.InequalityAsWritten | Assets/Voronoi/Structures/VEdge.cs:72-75 | operator != as written: true exactly when the edges are IsEqual |
| Edges.InequalityOperator | Assets/Voronoi/Structures/VEdge.cs:72-75 | operator != as intended: true exactly when an index differs |
| Edges.IsEqualIsEquivalence | Assets/Voronoi/Structures/VEdge.cs:79-82 | IsEqual is reflexive, symmetric and transitive |
| Edges.IsEqualIgnoresGeometry | Assets/Voronoi/Structures/VEdge.cs:79-82 | points and neighbour play no part; the reversed edge is equal only when both ends name one region |
| Edges.SiteConstructorsAgree | Assets/Voronoi/Structures/VEdge.cs:14-30 | the two site constructors build equal edges with the same start |
| Edges.InequalityIsNegation | Assets/Voronoi/Structures/VEdge.cs:68-75 | the intended != is the negation of ==; the written one equals == |
| Edges.NullUnequalToItselfAsWritten | Assets/Voronoi/Structures/VEdge.cs:72-77 | Null != Null holds as written and fails as intended |
| Edges.NullIsEmpty | Assets/Voronoi/Structures/VEdge.cs:77 | Null joins no region, has zero points and no neighbour |
| Sites.NewSite | Assets/Voronoi/Structures/VSite.cs:14-19 | the id is the index given and the point is kept |
| Sites.Point | Assets/Voronoi/Structures/VSite.cs:21 | the site's coordinates |
| Sites.Equals | Assets/Voronoi/Structures/VSite.cs:38-41 | true exactly when the ids agree |
| Sites.OperatorEq | Assets/Voronoi/Structures/VSite.cs:23-26 | operator == compares ids |
| Sites.OperatorNeq | Assets/Voronoi/Structures/VSite.cs:28-31 | operator != is true exactly when the ids differ |
| Sites.CompareTo | Assets/Voronoi/Structures/VSite.cs:33-36 | -1, 0 or 1 by the order of the ids; 0 exactly when Equals |
| Sites.GetHashCode | Assets/Voronoi/Structures/VSite.cs:48-51 | the hash is the id |
| Sites.NewSiteRoundTrip | Assets/Voronoi/Structures/VSite.cs:14-21 | rebuilding a site from its id and point gives it back |
| Sites.OperatorsComplementary | Assets/Voronoi/Structures/VSite.cs:23-41 | != is the negation of ==, and == is Equals |
| Sites.EqualityIgnoresCoordinates | Assets/Voronoi/Structures/VSite.cs:38-51 | moving a site keeps it equal and its hash; equal sites hash alike |
| Sites.CompareToIsTotalOrder | Assets/Voronoi/Structures/VSite.cs:33-36 | CompareTo is antisymmetric, transitive and total |
| Events.ToUShort | Assets/Voronoi/Structures/FortuneEvent.cs:35 | the unchecked cast keeps the value modulo 65536, and values already in range |
| Events.SiteEvent | Assets/Voronoi/Structures/FortuneEvent.cs:31-40 | a site event takes the counter as id and bumps it; no node, YCenter float.MaxValue, Site the wrapped index |
| Events.CircleEvent | Assets/Voronoi/Structures/FortuneEvent.cs:49-58 | a circle event takes the counter as id and bumps it; it keeps point, centre height and node, with Site ushort.MaxValue |
| Events.ConstructorsStamp | Assets/Voronoi/Structures/FortuneEvent.cs:31-58 | both constructors take the counter's value and leave it one higher |
| Events.StampKeepsIdsIssued | Assets/Voronoi/Structures/FortuneEvent.cs:34 | events built one after another from one counter have strictly increasing, distinct ids |
| Events.SiteIndexWraps | Assets/Voronoi/Structures/FortuneEvent.cs:35 | site indexes 65536 apart land on the same Site; 65536 becomes 0 |
| Events.Exists | Assets/Voronoi/Structures/FortuneEventArc.cs:9 | true exactly when the id is positive |
| Events.FromEvent | Assets/Voronoi/Structures/FortuneEventArc.cs:11-16 | keeps the event's id and position |
| Events.ExistsCases | Assets/Voronoi/Structures/FortuneEventArc.cs:9-26 | Null does not exist; a record of an event exists exactly when the event's id is positive, so event 0 never does |
| StructArray.StructList4.constructor | Assets/Voronoi/Helpers/StructArray.cs:6-12 | the default struct is an empty list |
| StructArray.StructList4.Add | Assets/Voronoi/Helpers/StructArray.cs:13-33 | succeeds exactly when Length is 0..3; then slot Length is written, Length grows by one and the contents gain v at the end; otherwise nothing changes |
| StructArray.StructList4.Get | Assets/Voronoi/Helpers/StructArray.cs:35-48 | any of the four slots whatever Length is; other indexes fail |
| StructArray.StructList4.RemoveAtSwapBack | Assets/Voronoi/Helpers/StructArray.cs:50-76 | Length at most 1 empties the list; otherwise the last slot moves into slot index and Length drops, an index outside 0..3 fails with nothing changed; on a used index the contents are the swap-back removal |
| StructArray.AddThenRead | Assets/Voronoi/Helpers/StructArray.cs:13-48 | after a successful Add, reading Length - 1 gives the value added |
| Collections.RemoveAtSwapBack | Assets/Voronoi/Jobs/VoronoiMerger.cs:313-316 | NativeList.RemoveAtSwapBack: one element fewer, exactly s[i] gone from the multiset, the last element moved into slot i and every other slot kept |
| Collections.SwapBackLast | Assets/Voronoi/Handlers/ConvexHull.cs:33 | removing the last slot by swap-back drops the last element |
| Collections.SwapBackSuffix | Assets/Voronoi/Jobs/VoronoiMerger.cs:313-316 | removing slot i leaves the prefix before i and replaces the rest by the elements after i, in some order |
| Collections.MultiAdd | Assets/Voronoi/Jobs/VoronoiMerger.cs:321-322 | NativeMultiHashMap.Add: one more entry, the new one first |
| Collections.ValuesFor | Assets/Voronoi/Jobs/VoronoiMerger.cs:374 | GetValuesForKey: a value is listed exactly when it was added under the key |
| Collections.ValuesForAdd | Assets/Voronoi/Jobs/VoronoiMerger.cs:321-322 | adding under a key puts the value first among that key's values and leaves every other key's values alone |
| VGeometry.Perpendicular | Assets/Voronoi/Helpers/VGeometry.cs:9-17 | the turned vector is orthogonal to v, as long, and turned clockwise by default (counter-clockwise on request) |
| VGeometry.PerpendicularOpposite | Assets/Voronoi/Helpers/VGeometry.cs:9-17 | turning counter-clockwise is turning the opposite vector clockwise |
| VGeometry.ApproxEquals | Assets/Voronoi/Helpers/VGeometry.cs:19-22 | both coordinates differ by at most the tolerance |
| VGeometry.ApproxEqualsReflexiveSymmetric | Assets/Voronoi/Helpers/VGeometry.cs:19-22 | with a non-negative tolerance the relation is reflexive and symmetric |
| VGeometry.RaySide | Assets/Voronoi/Helpers/VGeometry.cs:152-161 | 1, -1 or 0 by the sign of the cross product of b - a and c - a |
| VGeometry.RaySideOfEndpoints | Assets/Voronoi/Helpers/VGeometry.cs:152-161 | both points that define the ray are on it (side 0) |
| VGeometry.RaySideSwap | Assets/Voronoi/Helpers/VGeometry.cs:152-161 | exchanging the two points after a flips the side |
| VGeometry.Intersection | Assets/Voronoi/Helpers/VGeometry.cs:127-148 | finds a point exactly when the lines are not parallel, and then it is on both lines; otherwise the point is zero |
| VGeometry.DeltaIsCross | Assets/Voronoi/Helpers/VGeometry.cs:137 | the determinant is the cross product of the two directions |
| VGeometry.CramerSolves | Assets/Voronoi/Helpers/VGeometry.cs:129-146 | the point of line 146 solves both line equations |
| VGeometry.IntersectionUnique | Assets/Voronoi/Helpers/VGeometry.cs:127-148 | when a point is found it is the only point on both lines |
| VGeometry.PointOnLineSegment | Assets/Voronoi/Helpers/VGeometry.cs:108-125 | rejects points more than epsilon outside the bounding box; near-vertical and near-horizontal segments compare against the ends' x or y, others against the line through both ends |
| VGeometry.PointsOfSegmentAccepted | Assets/Voronoi/Helpers/VGeometry.cs:108-125 | every point of the segment is accepted |
| VGeometry.EndpointsOnSegment | Assets/Voronoi/Helpers/VGeometry.cs:108-125 | both ends are accepted |
| VGeometry.RayDirection | Assets/Voronoi/Helpers/VGeometry.cs:33-34 | (run, rise) is left - right turned counter-clockwise, so it is orthogonal to the segment between the sites |
| VGeometry.Intercept | Assets/Voronoi/Helpers/VGeometry.cs:36 | the intercept as intended: the line of that slope through start |
| VGeometry.InterceptAsWritten | Assets/Voronoi/Helpers/VGeometry.cs:36 | the intercept as written puts the line through (start.x, start.x) instead of start; it agrees with the intended intercept exactly when start.x == start.y |
| VGeometry.XAt | Assets/Voronoi/Helpers/VGeometry.cs:98-101 | CalcX: the x at which the line reaches height y |
| VGeometry.BoundaryCandidates | Assets/Voronoi/Helpers/VGeometry.cs:46-60 | at most four points, each on the line, where it meets the sides of the clipping square |
| VGeometry.KeepAligned | Assets/Voronoi/Helpers/VGeometry.cs:62-70 | a candidate is kept exactly when it does not point backwards from start |
| VGeometry.RemoveMisaligned | Assets/Voronoi/Helpers/VGeometry.cs:62-70 | the backward RemoveAtSwapBack loop leaves exactly the aligned candidates (as a multiset) |
| VGeometry.ChooseRayEnd | Assets/Voronoi/Helpers/VGeometry.cs:51-90 | the only survivor, the farther of two, or (float.MinValue, float.MinValue) otherwise |
| VGeometry.BuildRayEnd | Assets/Voronoi/Helpers/VGeometry.cs:26-91 | horizontal rays end on the left/right side, vertical ones on top/bottom, others at the farther clipping point ahead of start, which lies on the ray, or the unset point |
| VGeometry.BuildRayEndAsWritten | Assets/Voronoi/Helpers/VGeometry.cs:26-91 | with the intercept as written, the end is chosen among the clipping points of a different line |
| VGeometry.AsWrittenSurvivor | Assets/Voronoi/Helpers/VGeometry.cs:36-70 | for sites (0,0), (2,4) and start (1,2) one candidate of the as-written line survives |
| VGeometry.AsWrittenRayEndLeavesTheRay | Assets/Voronoi/Helpers/VGeometry.cs:36-91 | for that input the as-written intercept is 1.5, not 2.5, and the end returned is not on the ray |
| VGeometry.AlignedCandidatesOnRay | Assets/Voronoi/Helpers/VGeometry.cs:46-90 | when all candidates are on the line through start, every aligned survivor lies on the ray |
| MinHeap.CompareFloat | Assets/Voronoi/Handlers/MinHeap.cs:92-93 | float.CompareTo on non-NaN values: the sign of a - b |
| MinHeap.LeftLessThanRight | Assets/Voronoi/Handlers/MinHeap.cs:88-94 | a before b exactly when a.Y < b.Y, or the Ys are equal and a.X < b.X |
| MinHeap.LeftLessThanRightIsStrictOrder | Assets/Voronoi/Handlers/MinHeap.cs:88-94 | irreflexive, asymmetric and transitive; incomparable events share (Y, X) |
| MinHeap.ParentIndex | Assets/Voronoi/Handlers/MinHeap.cs:54 | the truncating (index - 1) / 2: slot 0 maps to itself, every other slot to the parent whose child it is |
| MinHeap.Swapped | Assets/Voronoi/Handlers/MinHeap.cs:96-101 | the two slots exchanged, the others kept |
| MinHeap.SwappedPermutes | Assets/Voronoi/Handlers/MinHeap.cs:96-101 | a swap inside the heap permutes the heap and leaves the slots past it |
| MinHeap.HeapRootIsLeast | Assets/Voronoi/Handlers/MinHeap.cs:27 | in heap order nothing precedes slot 0 |
| MinHeap.HeapRootIsLeastAll | Assets/Voronoi/Handlers/MinHeap.cs:37 | every queued event is at least the first slot |
| MinHeap.UpStep | Assets/Voronoi/Handlers/MinHeap.cs:80-84 | one PercolateUp swap moves the only defect to the parent |
| MinHeap.DownStep | Assets/Voronoi/Handlers/MinHeap.cs:65-72 | one PercolateDown swap with the least child moves the only defect to that child |
| MinHeap.DownDone | Assets/Voronoi/Handlers/MinHeap.cs:70 | when no child precedes the slot the heap is ordered |
| MinHeap.IndexOfId | Assets/Voronoi/Handlers/MinHeap.cs:42-48 | the first slot with the id, or -1 when no slot has it |
| MinHeap.IndexOfIdUnique | Assets/Voronoi/Handlers/MinHeap.cs:42-48 | any index with the first-match property is IndexOfId |
| MinHeap.PopShape | Assets/Voronoi/Handlers/MinHeap.cs:27-30 | moving the last event to the root leaves one defect at the root and drops exactly the old root |
| MinHeap.RemoveShape | Assets/Voronoi/Handlers/MinHeap.cs:52-57 | after the swap with the last slot the only defect is at the swapped slot, upward or downward |
| MinHeap.RemoveMultiset | Assets/Voronoi/Handlers/MinHeap.cs:52-53 | the swap and shrink drop exactly the removed event |
| MinHeap.RemoveOrder | Assets/Voronoi/Handlers/MinHeap.cs:54-57 | the branch on LeftLessThanRight(index, parent) picks the direction in which the heap is repaired |
| MinHeap.EventHeap.constructor | Assets/Voronoi/Jobs/FortunesWithConvexHull.cs:46-47 | an empty queue over an array of the given capacity |
| MinHeap.EventHeap.Swap | Assets/Voronoi/Handlers/MinHeap.cs:96-101 | the array with the two slots exchanged |
| MinHeap.EventHeap.PercolateUp | Assets/Voronoi/Handlers/MinHeap.cs:76-86 | with one upward defect at index, ends heap-ordered with the same events and the slots past count untouched |
| MinHeap.EventHeap.PercolateDown | Assets/Voronoi/Handlers/MinHeap.cs:61-74 | with one downward defect at index, ends heap-ordered with the same events and the slots past count untouched |
| MinHeap.EventHeap.EventInsert | Assets/Voronoi/Handlers/MinHeap.cs:9-16 | fails exactly when full and then changes nothing; otherwise the queue gains the event, one more slot, and stays a heap |
| MinHeap.EventHeap.EventPop | Assets/Voronoi/Handlers/MinHeap.cs:18-32 | fails exactly when empty; otherwise returns a least queued event and removes exactly it, keeping heap order |
| MinHeap.EventHeap.EventPeek | Assets/Voronoi/Handlers/MinHeap.cs:34-38 | fails exactly when empty; otherwise the first slot, which is a least queued event |
| MinHeap.EventHeap.FindId | Assets/Voronoi/Handlers/MinHeap.cs:42-48 | the linear scan returns IndexOfId over the queued slots |
| MinHeap.EventHeap.EventRemove | Assets/Voronoi/Handlers/MinHeap.cs:40-59 | true exactly when an event with that id is queued; then exactly the first one is removed and heap order kept; otherwise nothing changes |
| RedBlackTree.Tree.constructor | Assets/Voronoi/Structures/RedBlackTree.cs:17-28 | seven fresh arrays of the capacity, zero-filled, count 0 and root -1 |
| RedBlackTree.Tree.Reset | Assets/Voronoi/Structures/RedBlackTree.cs:30-43 | every value and link slot becomes -1, colours untouched, and the result is a valid empty tree |
| RedBlackTree.Tree.GetFirst | Assets/Voronoi/Handlers/RedBlackTree.cs:298-304 | -1 for -1; otherwise the node with no left child at the first in-order place of the subtree |
| RedBlackTree.Tree.GetLast | Assets/Voronoi/Handlers/RedBlackTree.cs:306-311 | -1 for -1; otherwise the node with no right child at the last in-order place of the subtree |
| RedBlackTree.Tree.ReplaceChild | Assets/Voronoi/Handlers/RedBlackTree.cs:324-332 | q takes p's place as par's left or right child, or becomes the root when par is -1; nothing else changes |
| RedBlackTree.Tree.RotateLeft | Assets/Voronoi/Handlers/RedBlackTree.cs:313-339 | the arrays become the left rotation TreeRotate.RotL of the old state; colours and list links untouched |
| RedBlackTree.Tree.RotateRight | Assets/Voronoi/Handlers/RedBlackTree.cs:341-368 | the arrays become the right rotation TreeRotate.RotR of the old state |
| RedBlackTree.Tree.InsertTreeNode | Assets/Voronoi/Handlers/RedBlackTree.cs:8-129 | the new node is slot count with value arc, placed just after node in the in-order sequence and the previous/next list (first when node is -1); the tree stays a valid red-black tree |
| RedBlackTree.Tree.LinkAfter | Assets/Voronoi/Handlers/RedBlackTree.cs:28-47 | x goes in just after node, as its right child or as the left child of the first node of its right subtree; the in-order sequence gains x after node |
| RedBlackTree.Tree.AdoptLeft | Assets/Voronoi/Handlers/RedBlackTree.cs:37-40 | x becomes m's left child, just after node in order |
| RedBlackTree.Tree.AdoptRight | Assets/Voronoi/Handlers/RedBlackTree.cs:42-46 | x becomes node's right child, just after node in order |
| RedBlackTree.Tree.LinkFirst | Assets/Voronoi/Handlers/RedBlackTree.cs:48-58 | x goes in first, as the left child of the first node, and heads the list |
| RedBlackTree.Tree.ThreadIn | Assets/Voronoi/Handlers/RedBlackTree.cs:30-34 | x is linked between node and its old successor in the previous/next list |
| RedBlackTree.Tree.Rebalance | Assets/Voronoi/Handlers/RedBlackTree.cs:71-127 | the insertion fix-up loop ends with a valid red-black tree and the same in-order sequence |
| RedBlackTree.Tree.FixStep | Assets/Voronoi/Handlers/RedBlackTree.cs:77-125 | one round keeps the loop invariant and, while the parent is red, x moves strictly up |
| RedBlackTree.Tree.PaintRoot | Assets/Voronoi/Handlers/RedBlackTree.cs:127 | painting the root black restores the full invariant |
| RedBlackTree.Tree.FixLeft | Assets/Voronoi/Handlers/RedBlackTree.cs:78-100 | the round when the parent is a left child keeps the loop invariant and makes progress |
| RedBlackTree.Tree.FixRight | Assets/Voronoi/Handlers/RedBlackTree.cs:101-124 | the mirror round |
| RedBlackTree.Tree.FlipColours | Assets/Voronoi/Handlers/RedBlackTree.cs:80-86 | a red aunt: parent and aunt turn black, grandparent red; the violation moves to the grandparent |
| RedBlackTree.Tree.TurnLeft | Assets/Voronoi/Handlers/RedBlackTree.cs:90-98 | a black aunt: after at most two rotations no red node has a red parent |
| RedBlackTree.Tree.TurnRight | Assets/Voronoi/Handlers/RedBlackTree.cs:113-122 | the mirror image |
| RedBlackTree.Tree.PivotRight | Assets/Voronoi/Handlers/RedBlackTree.cs:96-98 | parent black, grandparent red and rotated right: no red-red edge is left |
| RedBlackTree.Tree.PivotLeft | Assets/Voronoi/Handlers/RedBlackTree.cs:120-122 | the mirror image |
| RedBlackTree.Tree.RemoveTreeNode | Assets/Voronoi/Handlers/RedBlackTree.cs:131-296 | node leaves the in-order sequence (and the list) at its place, count stays, and the tree is a valid red-black tree again |
| RedBlackTree.Tree.Unthread | Assets/Voronoi/Handlers/RedBlackTree.cs:141-145 | z's list neighbours are linked to each other |
| RedBlackTree.Tree.Detach | Assets/Voronoi/Handlers/RedBlackTree.cs:141-172 | z leaves the list and the node that takes its place is chosen; the state is TreeSplice.DetachTarget |
| RedBlackTree.Tree.Splice | Assets/Voronoi/Handlers/RedBlackTree.cs:141-211 | z is out of the list and the tree; what may be missing is one black node on the paths through x below p (TreeSplice.Removed) |
| RedBlackTree.Tree.SpliceOne | Assets/Voronoi/Handlers/RedBlackTree.cs:202-211 | with at most one child c, c takes z's place |
| RedBlackTree.Tree.Reattach | Assets/Voronoi/Handlers/RedBlackTree.cs:208-211 | x hangs below p; the state is the target t |
| RedBlackTree.Tree.SpliceTwo | Assets/Voronoi/Handlers/RedBlackTree.cs:175-211 | with two children, the successor y takes z's place and colour |
| RedBlackTree.Tree.SpliceDeep | Assets/Voronoi/Handlers/RedBlackTree.cs:177-200 | the successor below z's right child: its right child takes its place, and it takes z's |
| RedBlackTree.Tree.GraftTop | Assets/Voronoi/Handlers/RedBlackTree.cs:177-182 | y takes z's colour and left child |
| RedBlackTree.Tree.GraftDown | Assets/Voronoi/Handlers/RedBlackTree.cs:183-200 | y's right child takes y's place and y adopts z's right subtree |
| RedBlackTree.Tree.SpliceNear | Assets/Voronoi/Handlers/RedBlackTree.cs:177-200 | the successor is z's right child and takes z's place directly |
| RedBlackTree.Tree.Blacken | Assets/Voronoi/Handlers/RedBlackTree.cs:218-222 | a red x (or the root) turns black and the tree is valid |
| RedBlackTree.Tree.Repair | Assets/Voronoi/Handlers/RedBlackTree.cs:228-295 | the removal fix-up loop ends with a valid red-black tree and the same in-order sequence |
| RedBlackTree.Tree.RepairStep | Assets/Voronoi/Handlers/RedBlackTree.cs:232-291 | one round keeps the loop invariant and either finishes or moves x strictly up |
| RedBlackTree.Tree.Lift | Assets/Voronoi/Handlers/RedBlackTree.cs:289-291 | a black sibling with black children turns red and the deficit moves to the parent |
| RedBlackTree.Tree.SideLeft | Assets/Voronoi/Handlers/RedBlackTree.cs:234-260 | the rounds with x on the left: a red sibling is rotated away first |
| RedBlackTree.Tree.NephewsLeft | Assets/Voronoi/Handlers/RedBlackTree.cs:244-260 | with a black sibling, the nephews' colours decide between lifting and rotating |
| RedBlackTree.Tree.TurnSiblingLeft | Assets/Voronoi/Handlers/RedBlackTree.cs:237-243 | the red sibling turns black, the parent red, and the parent is rotated left |
| RedBlackTree.Tree.TurnNearLeft | Assets/Voronoi/Handlers/RedBlackTree.cs:248-254 | the red near nephew turns black, the sibling red, and the sibling is rotated right |
| RedBlackTree.Tree.TurnFarLeft | Assets/Voronoi/Handlers/RedBlackTree.cs:255-259 | the sibling takes the parent's colour, parent and far nephew turn black, the parent is rotated left, and the deficit is gone |
| RedBlackTree.Tree.SideRight | Assets/Voronoi/Handlers/RedBlackTree.cs:262-288 | the mirror rounds with x on the right |
| RedBlackTree.Tree.NephewsRight | Assets/Voronoi/Handlers/RedBlackTree.cs:272-287 | the mirror image of NephewsLeft |
| RedBlackTree.Tree.TurnSiblingRight | Assets/Voronoi/Handlers/RedBlackTree.cs:265-271 | the mirror image of TurnSiblingLeft |
| RedBlackTree.Tree.TurnNearRight | Assets/Voronoi/Handlers/RedBlackTree.cs:275-281 | the mirror image of TurnNearLeft |
| RedBlackTree.Tree.TurnFarRight | Assets/Voronoi/Handlers/RedBlackTree.cs:282-286 | the mirror image of TurnFarLeft |
| TreeRotate.RotLStruct | Assets/Voronoi/Handlers/RedBlackTree.cs:313-339 | a left rotation where p has a right child keeps the tree's shape and threading and its in-order sequence |
| TreeRotate.RotRStruct | Assets/Voronoi/Handlers/RedBlackTree.cs:341-368 | the same for a right rotation |
| TreeInsert.InsRightStruct | Assets/Voronoi/Handlers/RedBlackTree.cs:28-47 | inserting after a node without a right child puts the new slot just after it in order and keeps the shape |
| TreeInsert.InsLeftStruct | Assets/Voronoi/Handlers/RedBlackTree.cs:37-58 | inserting as the left child of m puts the new slot just before m in order and keeps the shape |
| TreeInsert.InsRootStruct | Assets/Voronoi/Handlers/RedBlackTree.cs:59-65 | into the empty tree the new slot becomes the root and only node |
| TreeInsert.AttachedColour | Assets/Voronoi/Handlers/RedBlackTree.cs:67-69 | hanging a red leaf keeps every black height and breaks the red rule at most at the new node |
| TreeFixup.RecolourUp | Assets/Voronoi/Handlers/RedBlackTree.cs:80-86 | recolouring with a red aunt moves the violation two levels up |
| TreeFixup.RotateParentL | Assets/Voronoi/Handlers/RedBlackTree.cs:90-95 | rotating left at an inner parent turns the inner case into the outer one |
| TreeFixup.RotateGrandL | Assets/Voronoi/Handlers/RedBlackTree.cs:96-98 | recolouring and rotating at the grandparent leaves no red-red edge |
| TreeFixup.FixDone | Assets/Voronoi/Handlers/RedBlackTree.cs:75 | once x's parent is black no red node has a red child |
| TreeFixup.BlackenRoot | Assets/Voronoi/Handlers/RedBlackTree.cs:127 | at the end of the loop, painting the root black gives a red-black tree |
| TreeSplice.OneRemoved | Assets/Voronoi/Handlers/RedBlackTree.cs:202-216 | with at most one child, the child takes z's place; only one black node may be missing on its paths |
| TreeSucc.TwoRemoved | Assets/Voronoi/Handlers/RedBlackTree.cs:175-216 | with two children, the successor takes z's place and colour; only one black node may be missing below the gap |
| TreeErase.RemovedRed | Assets/Voronoi/Handlers/RedBlackTree.cs:213-216 | when the removed colour was red the tree is already valid |
| TreeErase.PushUp | Assets/Voronoi/Handlers/RedBlackTree.cs:289-291 | a black sibling with black children turns red and the deficit moves up one level |
| TreeErase.RotateSiblingL | Assets/Voronoi/Handlers/RedBlackTree.cs:237-243 | a red sibling is rotated away, leaving a black sibling |
| TreeErase.RotateNearL | Assets/Voronoi/Handlers/RedBlackTree.cs:248-254 | a red near nephew is rotated outside |
| TreeErase.RotateFarL | Assets/Voronoi/Handlers/RedBlackTree.cs:255-259 | a red far nephew ends the loop with the tree valid |
| TreeEraseRight.RotateSiblingR | Assets/Voronoi/Handlers/RedBlackTree.cs:265-271 | the mirror image of RotateSiblingL |
| TreeEraseRight.RotateNearR | Assets/Voronoi/Handlers/RedBlackTree.cs:275-281 | the mirror image of RotateNearL |
| TreeEraseRight.RotateFarR | Assets/Voronoi/Handlers/RedBlackTree.cs:282-286 | the mirror image of RotateFarL |
| BeachGeometry.LeftBreakpoint | Assets/Voronoi/Handlers/BeachLine.cs:352-373 | never +infinity; -infinity exactly when there is no arc before and the arc's own site is not on the directrix |
| BeachGeometry.RightBreakpoint | Assets/Voronoi/Handlers/BeachLine.cs:375-396 | never -infinity; +infinity exactly when there is no arc after and the arc's own site is not on the directrix |
| BeachGeometry.BreakpointsAgree | Assets/Voronoi/Handlers/BeachLine.cs:352-396 | two neighbouring arcs compute the same breakpoint between them, unless both sites lie on the directrix, when each reports its own x |
| BeachGeometry.DegenerateArcIsPoint | Assets/Voronoi/Handlers/BeachLine.cs:361-364 | an arc whose site lies on the directrix has both breakpoints at its x |
| BeachGeometry.LocateMeaning | Assets/Voronoi/Handlers/BeachLine.cs:40-96 | the placement the descent tests for, in terms of the breakpoints: Before iff x is left of the left one, After iff right of the right one, Inside iff more than the tolerance inside both, OnLeft/OnRight within the tolerance |
| BeachGeometry.NotInsideDegenerate | Assets/Voronoi/Handlers/BeachLine.cs:40-96 | no new site falls strictly inside an arc whose site is on the directrix |
| BeachGeometry.OffsetEquidistant | Assets/Voronoi/Handlers/BeachLine.cs:437-453 | unless the two offsets are parallel, the computed centre is as far from each of them as from the origin |
| BeachGeometry.CircumcenterEquidistant | Assets/Voronoi/Handlers/BeachLine.cs:437-456 | unless the three sites are collinear, the computed centre is equidistant from all three |
| BeachGeometry.CircleTop | Assets/Voronoi/Handlers/BeachLine.cs:437-458 | a circle event exists exactly when the outer sites turn clockwise by more than the tolerance |
| BeachGeometry.CircleTopIsOnCircle | Assets/Voronoi/Handlers/BeachLine.cs:450-458 | the event point is straight above the circumcentre of the three sites, at its height plus the radius, and yCenter is the centre's y |
| BeachRemove.CollapsesAsWritten | Assets/Voronoi/Handlers/BeachLine.cs:276-278 | the collapse test as written: the neighbour's event top against the handled event's x and centre height |
| BeachRemove.SameCircleMissedAsWritten | Assets/Voronoi/Handlers/BeachLine.cs:265-278 | for a circle whose radius exceeds the tolerance, the test as written never matches another event of the same circle |
| BeachRemove.SameCircleWitness | Assets/Voronoi/Handlers/BeachLine.cs:265-278 | concrete events of the unit circle round (0, 1) that the test as written misses and the intended one matches |
| BeachRemove.SameCircleCollapses | Assets/Voronoi/Handlers/BeachLine.cs:276-278 | with the intended test, an event at the same point always collapses, and any collapsing one is within the tolerance in x and y |
| BeachRemove.LeftStop | Assets/Voronoi/Handlers/BeachLine.cs:273-283 | the look-left walk: the first place at or left of i whose arc does not collapse (-1 past the end), with every place in between collapsing |
| BeachRemove.RightStop | Assets/Voronoi/Handlers/BeachLine.cs:285-294 | the look-right walk: the first place at or right of i whose arc does not collapse, with every place in between collapsing |
| BeachRemove.LeftStopAsWritten | Assets/Voronoi/Handlers/BeachLine.cs:273-283 | the look-left walk with the test as written: it stops at a place that does not collapse as written |
| BeachRemove.RightStopAsWritten | Assets/Voronoi/Handlers/BeachLine.cs:285-294 | the look-right walk with the test as written |
| BeachRemove.AsWrittenWalksStopAtOnce | Assets/Voronoi/Handlers/BeachLine.cs:273-294 | when every pending event is above the handled centre by more than the tolerance, both walks as written stop at once and no neighbour is collected |
| BeachRemove.WalkWitness | Assets/Voronoi/Handlers/BeachLine.cs:273-283 | three concrete arcs where the intended walk collects the middle one and the walk as written does not |
| BeachRun.EndRun | Assets/Voronoi/Handlers/BeachLine.cs:296-330 | the edges of every arc of the run end at the vertex, the records from lo - 1 to hi are cleared, all ids but the handled one go into deleted, the lazy-deletion invariant is kept; fails exactly when an arc of the run has no edge |
| BeachRun.EndHandled | Assets/Voronoi/Handlers/BeachLine.cs:296-302 | the edges of the handled arc and of next end at the vertex and the handled record is cleared |
| BeachRun.EndEntry | Assets/Voronoi/Handlers/BeachLine.cs:305-313 | one collapsed arc: its edge and its right neighbour's edge end at the vertex, its event id goes into deleted and its record is cleared |
| BeachRun.ClearSurvivors | Assets/Voronoi/Handlers/BeachLine.cs:315-330 | the pending events of prev and next, if any, are cancelled into deleted |
| BeachTrack.SiteEventsOnce | Assets/Voronoi/Jobs/FortunesWithConvexHull.cs:57-63 | each seeded site event is queued once, names a site of the chunk and has an id below the count that no other one shares |
| BeachTrack.SeededTracked | Assets/Voronoi/Jobs/FortunesWithConvexHull.cs:57-63 | the seeded queue satisfies the lazy-deletion invariant with an empty beach line |
| BeachTrack.TrackedStart | Assets/Voronoi/Jobs/FortunesWithConvexHull.cs:57-63 | a queue of distinct site events with issued ids satisfies the invariant |
| BeachTrack.TrackedCancel | Assets/Voronoi/Handlers/BeachLine.cs:122-130 | cancelling an arc's pending event adds a fresh id to deleted and keeps the invariant |
| BeachTrack.TrackedClearHandled | Assets/Voronoi/Handlers/BeachLine.cs:301 | clearing the handled arc's record keeps the invariant, since no queued event carries its id |
| BeachTrack.TrackedSchedule | Assets/Voronoi/Handlers/BeachLine.cs:455-461 | scheduling an interior arc's circle event with the next id keeps the invariant |
| BeachTrack.TrackedInsert | Assets/Voronoi/Handlers/BeachLine.cs:100-106 | inserting a new arc into the beach line keeps the invariant |
| BeachTrack.TrackedDrop | Assets/Voronoi/Handlers/BeachLine.cs:338-342 | removing an arc without a record from the inside of the beach line keeps the invariant |
| BeachTrack.TrackedPop | Assets/Voronoi/Jobs/FortunesWithConvexHull.cs:77 | popping a queued event keeps the invariant; no event with its id is left; a live circle event is the one its arc records |
| BeachTrack.TrackedDiscard | Assets/Voronoi/Jobs/FortunesWithConvexHull.cs:86 | dropping a cancelled event's id from deleted keeps the invariant |
| BeachLine.SweepState.constructor | Assets/Voronoi/Jobs/FortunesWithConvexHull.cs:29-54 | tree arrays and arc lists of the given capacity, a zero-filled event array, everything else empty |
| BeachLine.CircleAmong | Assets/Voronoi/Handlers/BeachLine.cs:413-425 | a circle only when both neighbours exist and their sites differ |
| BeachLine.EventAmong | Assets/Voronoi/Handlers/BeachLine.cs:398-462 | an event exactly when CircleAmong gives a circle; it carries the given id, names the node and is a circle event |
| BeachLine.ChecksAfter | Assets/Voronoi/Handlers/BeachLine.cs:157-158 | two circle checks in a row, left then right, end where AfterChecks says, the second taking the id after the first |
| BeachLine.CancelledAppend | Assets/Voronoi/Handlers/BeachLine.cs:122-130 | cancelling an arc's event and appending a record commute, and the append leaves deleted alone |
| BeachLine.NotedKeeps | Assets/Voronoi/Handlers/BeachLine.cs:459-461 | recording an event at one arc keeps the number of records and every other arc's record |
| BeachLine.SweepState.AddArc | Assets/Voronoi/Handlers/BeachLine.cs:465-471 | one more arc with no edge and no event; fails exactly when the lists are at capacity |
| BeachLine.SweepState.AddEdge | Assets/Voronoi/Handlers/BeachLine.cs:473-479 | one more edge with an unset end; fails exactly when the edge list is full |
| BeachLine.SweepState.FindArcs | Assets/Voronoi/Handlers/BeachLine.cs:40-96 | none on an empty tree; otherwise the descent stops at an arc of the beach line where the placement says: one arc to split, or the two adjacent arcs around a breakpoint |
| BeachLine.SweepState.Scheduled | Assets/Voronoi/Handlers/BeachLine.cs:398-462 | the circle event a node gets carries the next id and names the node |
| BeachLine.SweepState.CircleOf | Assets/Voronoi/Handlers/BeachLine.cs:413-425 | a circle only when both neighbours exist and their sites differ |
| BeachLine.SweepState.ScheduledAmong | Assets/Voronoi/Handlers/BeachLine.cs:398-449 | the circle of a node on the beach line is CircleAmong of the line's sites and links |
| BeachLine.SweepState.ScheduledIsCircleTop | Assets/Voronoi/Handlers/BeachLine.cs:413-458 | an event is scheduled iff both neighbours exist, their sites differ and turn clockwise; the event is the top of the circle through the three sites |
| BeachLine.SweepState.CheckCircle | Assets/Voronoi/Handlers/BeachLine.cs:398-462 | the event the node gets is EventAmong on the current beach line (none when a neighbour is missing, the neighbours share a site or do not turn clockwise): the node records it, the id counter moves on by one and the queue gains it; with no event due nothing changes; fails exactly on a full queue |
| BeachLine.SweepState.Enqueue | Assets/Voronoi/Handlers/BeachLine.cs:459-461 | the node records the event, the id counter moves on and the queue gains the event unless full |
| BeachLine.SweepState.Cancel | Assets/Voronoi/Handlers/BeachLine.cs:122-130 | a pending event's id goes into deleted and the record is cleared; without one nothing changes (CancelledRecords, CancelledIds); the edges stay |
| BeachLine.SweepState.SetArcEdge | Assets/Voronoi/Handlers/BeachLine.cs:153-154 | only the node's edge changes, to the given one |
| BeachLine.SweepState.CancelBoth | Assets/Voronoi/Handlers/BeachLine.cs:188-202 | the pending events of leftNode and then rightNode are cancelled: their ids go into deleted and their records are cleared; every other record stays, and so do the edges |
| BeachLine.SweepState.CheckBoth | Assets/Voronoi/Handlers/BeachLine.cs:157-158 | the circles of leftNode and then rightNode are checked on the current beach line (AfterChecks): which events are recorded, the ids they take in order, the queue's gain; every other arc's record and the edges stay |
| BeachLine.SweepState.CheckNext | Assets/Voronoi/Handlers/BeachLine.cs:158 | after the left circle check, the right one completes AfterChecks from the records, ids and queue before both |
| BeachLine.SweepState.SetEnd | Assets/Voronoi/Handlers/BeachLine.cs:228 | the end of the arc's edge becomes v; fails exactly when the arc has no edge |
| BeachLine.SweepState.Grow | Assets/Voronoi/Handlers/BeachLine.cs:100-106 | a new node and arc right after leftNode (first for -1); fails exactly when the arrays are full |
| BeachLine.SweepState.Attach | Assets/Voronoi/Handlers/BeachLine.cs:104-106 | a new tree node holding the arc goes one place after leftNode (first for -1) and the tree stays sound |
| BeachLine.SweepState.SplitArc | Assets/Voronoi/Handlers/BeachLine.cs:118-159 | the split arc's copy goes right of the new arc, with the new edge pair and the circle checks |
| BeachLine.SweepState.Divide | Assets/Voronoi/Handlers/BeachLine.cs:118-138 | the arc's pending event is cancelled (its id into deleted, its record cleared) and its copy becomes a node right after the new one, with the same site, no edge and no event; fails exactly when the tree is full |
| BeachLine.SweepState.SplitRest | Assets/Voronoi/Handlers/BeachLine.cs:141-158 | two half edges start on the split arc's parabola at x: the first taken by the new arc, the second by the right copy |
| BeachLine.SweepState.SplitEdges | Assets/Voronoi/Handlers/BeachLine.cs:141-154 | two half edges for the new breakpoints, one taken by the new arc and one by the right copy |
| BeachLine.SweepState.StartColinear | Assets/Voronoi/Handlers/BeachLine.cs:164-180 | the colinear case: two edges between the last arc and the new one |
| BeachLine.SweepState.CloseBreakpoint | Assets/Voronoi/Handlers/BeachLine.cs:185-238 | the breakpoint's edge ends at the circle centre and two new edges start there; then the pending events of leftNode and rightNode are cancelled and their circles checked, left first (Closed) |
| BeachLine.SweepState.MeetBreakpoint | Assets/Voronoi/Handlers/BeachLine.cs:205-237 | the edge work of CloseBreakpoint, then the circles of leftNode and rightNode are checked, left first (AfterChecks) |
| BeachLine.SweepState.BreakpointEdges | Assets/Voronoi/Handlers/BeachLine.cs:205-225 | fails exactly when rightNode has no edge or the edge list is full; otherwise its edge ends and two edges are added |
| BeachLine.SweepState.AddBeachArc | Assets/Voronoi/Handlers/BeachLine.cs:12-239 | the new arc is placed where the descent found it: split (the line gains it and a copy of the split arc) or one arc after leftNode; the edge count grows by two except for the first arc; the sweep invariant holds |
| BeachLine.SweepState.SplitCase | Assets/Voronoi/Handlers/BeachLine.cs:100-159 | the new arc and the copy of the split arc go right after it in that order, with the two half edges starting on the parabola at x |
| BeachLine.SweepState.ColinearCase | Assets/Voronoi/Handlers/BeachLine.cs:100-180 | the new arc goes one place after leftNode with the colinear edge pair and an empty record; no event is cancelled or scheduled, as the queue, deleted and the id counter are outside its frame |
| BeachLine.SweepState.BreakpointCase | Assets/Voronoi/Handlers/BeachLine.cs:100-238 | the new arc goes between the two arcs; rightNode's edge ends at the circle centre of the three sites and two edges start there |
| BeachLine.SweepState.Collect | Assets/Voronoi/Handlers/BeachLine.cs:264-294 | prev and next are the places where LeftStop and RightStop stop, and the listed nodes are exactly the run between them, left run first |
| BeachLine.SweepState.CollectLeft | Assets/Voronoi/Handlers/BeachLine.cs:273-283 | the look-left loop gives LeftStop's place |
| BeachLine.SweepState.CollectRight | Assets/Voronoi/Handlers/BeachLine.cs:285-294 | the look-right loop gives RightStop's place |
| BeachLine.SweepState.Unlink | Assets/Voronoi/Handlers/BeachLine.cs:264-330 | the walks and the ending of the run's edges, on the fields |
| BeachLine.SweepState.CloseRun | Assets/Voronoi/Handlers/BeachLine.cs:296-330 | EndRun on the fields |
| BeachLine.SweepState.RemoveArc | Assets/Voronoi/Handlers/BeachLine.cs:338-342 | one arc without a record leaves the beach line at its place |
| BeachLine.SweepState.RemoveRun | Assets/Voronoi/Handlers/BeachLine.cs:338-342 | the whole run [lo, hi) leaves the beach line |
| BeachLine.SweepState.JoinEdge | Assets/Voronoi/Handlers/BeachLine.cs:333-335 | one new edge starting at the vertex, taken by next; fails exactly on a full edge list |
| BeachLine.SweepState.RemoveBeachArc | Assets/Voronoi/Handlers/BeachLine.cs:241-350 | the run of collapsing arcs leaves the line, their edges end at the vertex, all cancelled ids go into deleted, the new edge joins next and prev, and the sweep invariant holds |
| BeachLine.SweepState.Finish | Assets/Voronoi/Handlers/BeachLine.cs:332-349 | the new edge, the removal of the run and the circle checks |
| BeachLine.SweepState.Settle | Assets/Voronoi/Handlers/BeachLine.cs:338-349 | the run leaves the tree and prev and next are checked for circle events; the edge lists stay |
| BeachLine.SweepState.Seed | Assets/Voronoi/Jobs/FortunesWithConvexHull.cs:57-73 | the queue holds exactly the site events, the tree is empty and the sweep invariant holds; fails exactly when the event array is shorter than the sites |
| BeachLine.SweepState.SeedQueue | Assets/Voronoi/Jobs/FortunesWithConvexHull.cs:57-63 | site i gets the site event with id i; the queue holds exactly them |
| BeachLine.SweepState.Pop | Assets/Voronoi/Jobs/FortunesWithConvexHull.cs:77 | the popped event was queued and no queued event precedes it; a live circle event is one RemoveBeachArc can handle |
| BeachLine.SweepState.Discard | Assets/Voronoi/Jobs/FortunesWithConvexHull.cs:86 | a cancelled event's id leaves deleted and the invariant holds |
| FortuneSweep.SeedMaps | Assets/Voronoi/Jobs/FortunesWithConvexHull.cs:57-61 | SiteIndexIds maps every index to its site's id, and SiteIdIndexes maps each id to the last index that carries it |
| FortuneSweep.IdIndexedDistinct | Assets/Voronoi/Jobs/FortunesWithConvexHull.cs:57-61 | with distinct ids, every site's id leads back to its own index |
| FortuneSweep.MapsInverse | Assets/Voronoi/Jobs/FortunesWithConvexHull.cs:57-61 | with distinct ids, the two maps are inverse to each other |
| FortuneSweep.SentinelIsNotSet | Assets/Voronoi/Jobs/FortunesWithConvexHull.cs:227-230 | the unset sentinel is not set, and a point is set exactly when both coordinates exceed the least float |
| FortuneSweep.IsNotSet | Assets/Voronoi/Jobs/FortunesWithConvexHull.cs:227-230 | the unset sentinel is not set, and a point with both coordinates above the least float is set |
| FortuneSweep.NotSetOnFloats | Assets/Voronoi/Jobs/FortunesWithConvexHull.cs:227-230 | within the float range, not set means a coordinate equals the least float |
| FortuneSweep.GroupsShape | Assets/Voronoi/Jobs/FortunesWithConvexHull.cs:104-123 | the slots the compaction emits from are increasing, in range, and between half and all of the slots |
| FortuneSweep.GroupsWithoutNeighbours | Assets/Voronoi/Jobs/FortunesWithConvexHull.cs:104-123 | with no neighbours every slot emits its own edge |
| FortuneSweep.RegionsOf | Assets/Voronoi/Jobs/FortunesWithConvexHull.cs:126-127 | the region map after the compaction holds two entries per edge |
| FortuneSweep.RegionsIndexEdges | Assets/Voronoi/Jobs/FortunesWithConvexHull.cs:126-127 | edge k is listed under a site exactly when the site is the edge's left or right |
| FortuneSweep.RayEnd | Assets/Voronoi/Jobs/FortunesWithConvexHull.cs:134-140 | fails exactly when the index or a site id is missing; otherwise the ray end between the half-edge's two sites |
| FortuneSweep.FoldEdge | Assets/Voronoi/Jobs/FortunesWithConvexHull.cs:106-123 | the edge folded from one slot: a lone half-edge runs from start to end or to its ray end; a pair runs between the two ends, a missing one built from the half-edge that lacks it; fails when a read is out of range |
| FortuneSweep.MergeHalfEdges | Assets/Voronoi/Jobs/FortunesWithConvexHull.cs:100-132 | one edge per group of slots, with the sites of the group's first slot, folded as FoldEdge says, and the regions of the result; never fails on a well-formed sweep output |
| FortuneSweep.CompactStep | Assets/Voronoi/Jobs/FortunesWithConvexHull.cs:125-128 | writing slot newIndex extends the written prefix by the edge and the regions by its two entries |
| FortuneSweep.Execute | Assets/Voronoi/Jobs/FortunesWithConvexHull.cs:27-98 | the maps are seeded, at most four half-edges per site are made, the result is their compaction, and the hull is Andrew's hull of the sorted sites; an empty chunk fails |
| ConvexHull.Cross | Assets/Voronoi/Handlers/ConvexHull.cs:60-63 | the cross product of a - o and b - o, the same as the geometry module's |
| ConvexHull.Crossing | Assets/Voronoi/Handlers/ConvexHull.cs:168-174 | the sign of the turn, one of 1, 0 and -1 |
| ConvexHull.CrossingIsOppositeOfRaySide | Assets/Voronoi/Handlers/ConvexHull.cs:168-174 | the sign is the opposite of the side of the ray that the geometry module reports |
| ConvexHull.Compare | Assets/Voronoi/Handlers/ConvexHull.cs:65-71 | negative exactly when a is before b by X then Y, zero exactly for equal coordinates |
| ConvexHull.CompareIsTotalPreorder | Assets/Voronoi/Handlers/ConvexHull.cs:65-71 | the comparer is antisymmetric and transitive |
| ConvexHull.InsertSorted | Assets/Voronoi/Handlers/ConvexHull.cs:27 | inserting into a sorted sequence keeps it sorted and adds exactly the element |
| ConvexHull.SortSites | Assets/Voronoi/Handlers/ConvexHull.cs:24-27 | the copy of the sites is sorted by the comparer and is a permutation of them |
| ConvexHull.SortSitesKeepsSites | Assets/Voronoi/Handlers/ConvexHull.cs:24-27 | sorting keeps the length and draws every element from the input |
| ConvexHull.PopTurns | Assets/Voronoi/Handlers/ConvexHull.cs:32-33 | the pops leave a prefix of the chain, keep its first site, and stop at a strict turn towards p |
| ConvexHull.LowerScan | Assets/Voronoi/Handlers/ConvexHull.cs:29-35 | the lower chain after the first i sorted sites holds at most i sites |
| ConvexHull.UpperScan | Assets/Voronoi/Handlers/ConvexHull.cs:37-43 | the upper chain after the sorted sites from the last down to the i-th holds at most n - i sites |
| ConvexHull.AndrewsHull | Assets/Voronoi/Handlers/ConvexHull.cs:47-52 | the hull of n sorted sites, the two chains without their last sites, holds at most 2n - 2 sites |
| ConvexHull.PushKeepsTurns | Assets/Voronoi/Handlers/ConvexHull.cs:32-34 | pushing after the pops keeps every triple of the chain turning strictly |
| ConvexHull.LowerScanIsChain | Assets/Voronoi/Handlers/ConvexHull.cs:30-35 | the lower chain runs from the least sorted site to the i-th, uses only input sites and turns strictly |
| ConvexHull.UpperScanIsChain | Assets/Voronoi/Handlers/ConvexHull.cs:38-43 | the upper chain runs from the greatest sorted site down to the i-th |
| ConvexHull.LowerChain | Assets/Voronoi/Handlers/ConvexHull.cs:29-35 | the loop computes the lower chain |
| ConvexHull.UpperChain | Assets/Voronoi/Handlers/ConvexHull.cs:37-43 | the loop computes the upper chain |
| ConvexHull.AndrewsConvexHull | Assets/Voronoi/Handlers/ConvexHull.cs:22-58 | fails exactly on no sites; otherwise both chains without their last sites |
| ConvexHull.BuildConvexHull | Assets/Voronoi/Handlers/ConvexHull.cs:11-17 | the same as AndrewsConvexHull |
| ConvexHull.HullChains | Assets/Voronoi/Handlers/ConvexHull.cs:29-43 | both chains run between the least and the greatest sorted sites |
| ConvexHull.HullFromSites | Assets/Voronoi/Handlers/ConvexHull.cs:22-58 | every site of the hull is an input site |
| ConvexHull.HullShape | Assets/Voronoi/Handlers/ConvexHull.cs:47-52 | one site gives an empty hull; otherwise, with distinct ends, a hull of at least two sites starting at the least one |
| ConvexHull.GetRightMostIndex | Assets/Voronoi/Handlers/ConvexHull.cs:176-187 | an index of greatest X, the last one on ties; fails on an empty hull |
| ConvexHull.GetLeftMostIndex | Assets/Voronoi/Handlers/ConvexHull.cs:189-200 | an index of least X, the last one on ties; fails on an empty hull |
| ConvexHull.CyclicRange | Assets/Voronoi/Handlers/ConvexHull.cs:149-163 | the sites from one index forward to another with wrap-around; the length is the forward distance plus one |
| ConvexHull.Succ | Assets/Voronoi/Handlers/ConvexHull.cs:113-114 | the next index round a hull of n sites, (i + 1) % n, always a valid index |
| ConvexHull.Pred | Assets/Voronoi/Handlers/ConvexHull.cs:115-117 | the previous index round a hull of n sites, (n + i - 1) % n, always a valid index |
| ConvexHull.CyclicRangeStep | Assets/Voronoi/Handlers/ConvexHull.cs:151-155 | one more forward step extends the range by the next site |
| ConvexHull.MergeHandler | Assets/Voronoi/Handlers/ConvexHull.cs:97-165 | fails on an empty side; otherwise both walks stop at pairs where neither side can move, and the hull is a's range from the upper to the lower tangent then b's from the lower to the upper one |
| ConvexHull.Merge | Assets/Voronoi/Handlers/ConvexHull.cs:78-95 | MergeHandler's hull with the sites at its four tangent indexes |
| VoronoiMerge.MergeSites | Assets/Voronoi/Jobs/VoronoiMerger.cs:106-109 | Sites is the left sites then the right ones, and the id map records each id at its index in the joined list |
| VoronoiMerge.MergedIndexes | Assets/Voronoi/Jobs/VoronoiMerger.cs:108-109 | with distinct ids a left id leads to its own index and a right id to its index shifted past the left sites |
| VoronoiMerge.ProbeEdge | Assets/Voronoi/Jobs/VoronoiMerger.cs:378-385 | a hit lies on the edge's segment; for RegionCrossing it is not the current edge, lies strictly ahead and is measured by squared distance |
| VoronoiMerge.ScanFails | Assets/Voronoi/Jobs/VoronoiMerger.cs:419-431 | a scan fails exactly when an index of the region lies outside the edge list |
| VoronoiMerge.ScanFinds | Assets/Voronoi/Jobs/VoronoiMerger.cs:358-445 | the best measure never grows and is at most every hit within the starting bound; something is found iff it already was or some edge of the region is hit within that bound; the result is the start or a hit of the region with its own measure and point |
| VoronoiMerge.RegionCrossing | Assets/Voronoi/Jobs/VoronoiMerger.cs:399-445 | the enumerator loop gives the scan from the current point along the direction, skipping the current edge |
| VoronoiMerge.RayRegionCrossing | Assets/Voronoi/Jobs/VoronoiMerger.cs:358-397 | the enumerator loop gives the scan across the incoming ray's normal |
| VoronoiMerge.ScanRegion | Assets/Voronoi/Jobs/VoronoiMerger.cs:374-395 | the loop over the region's indexes computes Scan |
| VoronoiMerge.RegionCrossingFinds | Assets/Voronoi/Jobs/VoronoiMerger.cs:399-445 | true exactly when an edge of the region other than the current one is crossed strictly ahead; then it is the nearest such edge of the region, and otherwise nothing is recorded |
| VoronoiMerge.EdgeSideLeft | Assets/Voronoi/Jobs/VoronoiMerger.cs:447-453 | 1 iff an end lies strictly left of the ray, -1 iff both lie strictly right |
| VoronoiMerge.EdgeSideRight | Assets/Voronoi/Jobs/VoronoiMerger.cs:455-461 | -1 iff an end lies strictly right of the ray, 1 iff both lie strictly left |
| VoronoiMerge.EdgeSidesMirror | Assets/Voronoi/Jobs/VoronoiMerger.cs:447-461 | the right side along a ray is the left side along the reversed ray, negated |
| VoronoiMerge.CutLeftEdge | Assets/Voronoi/Jobs/VoronoiMerger.cs:463-472 | the cut keeps the edge's sites and ends at the exit point; it starts at the enter point when entered through the same edge, else at the end further right |
| VoronoiMerge.CutRightEdge | Assets/Voronoi/Jobs/VoronoiMerger.cs:474-483 | the same with the end further left kept |
| VoronoiMerge.CutSpansRegion | Assets/Voronoi/Jobs/VoronoiMerger.cs:463-483 | entering and leaving through one edge gives the segment from enter to exit point; cutting a cut again changes nothing |
| VoronoiMerge.FlagRegion | Assets/Voronoi/Jobs/VoronoiMerger.cs:140-147 | fails exactly when an unskipped index lies outside the edge list; otherwise adds exactly the region's unskipped indexes whose edge the test flags |
| VoronoiMerge.KeptDrop | Assets/Voronoi/Jobs/VoronoiMerger.cs:313 | flagging one more slot drops exactly one copy of its edge from the kept edges |
| VoronoiMerge.UnflaggedDrop | Assets/Voronoi/Jobs/VoronoiMerger.cs:313 | flagging one more slot in range takes one copy of its edge out of the kept multiset |
| VoronoiMerge.KeptNone | Assets/Voronoi/Jobs/VoronoiMerger.cs:311-316 | without flags every edge is kept in order |
| VoronoiMerge.RangeSetBound | Assets/Voronoi/Jobs/VoronoiMerger.cs:311-313 | flags within [lo, n) are at most n - lo |
| VoronoiMerge.RemoveFlagged | Assets/Voronoi/Jobs/VoronoiMerger.cs:311-316 | fails exactly when a flag lies outside the list; otherwise one edge fewer per flag, and the kept edges are exactly the unflagged ones |
| VoronoiMerge.RemovalStep | Assets/Voronoi/Jobs/VoronoiMerger.cs:313 | removing slot i by swap-back, from the top down, keeps the loop's invariant |
| VoronoiMerge.KeptStep | Assets/Voronoi/Jobs/VoronoiMerger.cs:313 | a swap-back removal below the untouched bound drops exactly that edge from the kept ones |
| VoronoiMerge.AddRegions | Assets/Voronoi/Jobs/VoronoiMerger.cs:319-323 | the loop adds both sites of every edge in the slot range under its index |
| VoronoiMerge.Assemble | Assets/Voronoi/Jobs/VoronoiMerger.cs:318-340 | Edges is the kept left edges, the new edges and the kept right edges, and Regions lists each edge under both its sites at its joined index |
| VoronoiMerge.SiteOf | Assets/Voronoi/Jobs/VoronoiMerger.cs:188-204 | the lookup fails exactly on a missing id or an index outside the list, and otherwise gives the indexed site |
| VoronoiMerge.SiteOfFinds | Assets/Voronoi/Jobs/VoronoiMerger.cs:188-204 | over the merged id map the lookup succeeds exactly for the ids of the list and finds a site with that id |
| VoronoiMerge.Enter | Assets/Voronoi/Jobs/VoronoiMerger.cs:136-177 | fails exactly when the crossing names no edge, the region names an index outside the list, or the site across is unknown; otherwise the entered front |
| VoronoiMerge.Start | Assets/Voronoi/Jobs/VoronoiMerger.cs:123-185 | the incoming ray: fails exactly when a scan throws or the side cannot be entered; otherwise the first walk state with one new edge |
| VoronoiMerge.Advance | Assets/Voronoi/Jobs/VoronoiMerger.cs:209-292 | one side's advance: the chain gains the edge to the crossing, the crossed edge is cut, edges beyond are flagged and the front moves across |
| VoronoiMerge.WalkStep | Assets/Voronoi/Jobs/VoronoiMerger.cs:190-298 | one turn: fails exactly when a scan throws, neither side is crossed, or the chosen side cannot advance; otherwise the nearer side advances |
| VoronoiMerge.BegunTracked | Assets/Voronoi/Jobs/VoronoiMerger.cs:123-185 | the incoming ray sets up the walk invariant |
| VoronoiMerge.NextTracked | Assets/Voronoi/Jobs/VoronoiMerger.cs:190-298 | every step keeps the walk invariant |
| VoronoiMerge.StepThrows | Assets/Voronoi/Jobs/VoronoiMerger.cs:190-298 | under the walk invariant a step succeeds exactly when both scans read in range, some side is crossed, the site across the crossed edge is known and the chosen region can be flagged; a missing enter record never arises |
| VoronoiMerge.StepShape | Assets/Voronoi/Jobs/VoronoiMerger.cs:190-298 | one step adds exactly one new edge from the old to the new current point, and only the nearer side's front moves, across the crossed edge |
| VoronoiMerge.StepCrosses | Assets/Voronoi/Jobs/VoronoiMerger.cs:190-298 | the advancing side crossed an edge of its region, other than the current one, strictly ahead, with no nearer crossing |
| VoronoiMerge.WalkedStep | Assets/Voronoi/Jobs/VoronoiMerger.cs:188-299 | one more step extends the run of the walk |
| VoronoiMerge.WalkedRun | Assets/Voronoi/Jobs/VoronoiMerger.cs:188 | a run that reaches the lower tangent is a complete run |
| VoronoiMerge.RunWalk | Assets/Voronoi/Jobs/VoronoiMerger.cs:188-299 | the walk steps until both fronts are at the lower tangent, one new edge per state |
| VoronoiMerge.Close | Assets/Voronoi/Jobs/VoronoiMerger.cs:303-340 | the outgoing ray closes the chain, the flagged edges are removed from both lists, and the three lists are joined with their regions |
| VoronoiMerge.WalkHull | Assets/Voronoi/Jobs/VoronoiMerger.cs:123-299 | the incoming ray opens the walk, which runs to the lower tangent |
| VoronoiMerge.Execute | Assets/Voronoi/Jobs/VoronoiMerger.cs:85-356 | sites joined and indexed, hulls merged at their tangents, the walk runs from the upper to the lower tangent, and Edges is the kept left edges, the chain and the kept right edges with Regions rebuilt |
| VoronoiDiagram.Pow2From | Assets/Voronoi/Diagram.cs:151 | doubling from a power of two reaches the least power of two at or above x |
| VoronoiDiagram.CeilPow2 | Assets/Voronoi/Diagram.cs:151 | 0 stays 0; up to 2^30 the result is the least power of two at or above x; above 2^30 the 32-bit result wraps to the least int |
| VoronoiDiagram.CeilDiv | Assets/Voronoi/Diagram.cs:128 | the least count of b-sized pieces that covers a |
| VoronoiDiagram.SitesPerJob | Assets/Voronoi/Diagram.cs:128 | the least chunk size whose `jobs` chunks cover the n sites |
| VoronoiDiagram.CalcJobsCount | Assets/Voronoi/Diagram.cs:149-152 | no sites give no jobs; otherwise the least power of two of jobs whose maxSitesPerJob-sized shares cover the sites |
| VoronoiDiagram.JobsCover | Assets/Voronoi/Diagram.cs:151 | rounding the per-job quotient up to a power of two gives jobs that cover the sites, and half as many would not |
| VoronoiDiagram.JobsAtMostSites | Assets/Voronoi/Diagram.cs:149-152 | with at least two sites per job and at least one site, there is at least one job and never more jobs than sites |
| VoronoiDiagram.CompareX | Assets/Voronoi/Diagram.cs:181-185 | the comparer orders sites by X alone: negative, zero or positive as a.x is less, equal or greater |
| VoronoiDiagram.InsertByX | Assets/Voronoi/Diagram.cs:126 | inserting into a list sorted by X keeps it sorted and adds exactly that site |
| VoronoiDiagram.SortByX | Assets/Voronoi/Diagram.cs:126 | the sort gives a permutation of the sites ordered by X |
| VoronoiDiagram.Numbered | Assets/Voronoi/Diagram.cs:125 | site i has id i and the i-th point |
| VoronoiDiagram.NumberSites | Assets/Voronoi/Diagram.cs:124-125 | the loop builds the numbered sites |
| VoronoiDiagram.PartitionAsWritten | Assets/Voronoi/Diagram.cs:133-136 | with the fixed chunk size, the chunks start at 0, follow each other without gap and end at the last site, provided the last chunk does not start past it |
| VoronoiDiagram.ChunkStart | Assets/Voronoi/Diagram.cs:135 | as written, chunk i starts after i chunks of the fixed size, never before its proportional place i * n / jobs |
| VoronoiDiagram.ChunkLength | Assets/Voronoi/Diagram.cs:136 | as written, the length is the fixed size or what is left of the sites; it never exceeds the fixed size and is negative exactly when the chunk starts past the last site |
| VoronoiDiagram.NegativeChunkAsWritten | Assets/Voronoi/Diagram.cs:128-136 | 613700 sites at 1024 per job give 1024 jobs of 600 sites, and the last chunk has length -100 |
| VoronoiDiagram.StartWithin | Assets/Voronoi/Diagram.cs:135 | every balanced chunk start lies within the sites |
| VoronoiDiagram.BalancedStart | Assets/Voronoi/Diagram.cs:135 | the corrected start of chunk i is the floor of i * n / jobs |
| VoronoiDiagram.ChunkSites | Assets/Voronoi/Diagram.cs:135-137 | the sites of a corrected chunk come from the sorted sites, and with no more jobs than sites no chunk is empty |
| VoronoiDiagram.StartEnds | Assets/Voronoi/Diagram.cs:135-136 | the first balanced chunk starts at 0 and the last ends at the last site |
| VoronoiDiagram.StartStep | Assets/Voronoi/Diagram.cs:135-136 | balanced chunk starts never decrease |
| VoronoiDiagram.BalancedBounds | Assets/Voronoi/Diagram.cs:133-136 | balanced chunks lie in order inside the sites, from the first site to the last |
| VoronoiDiagram.BalancedPartition | Assets/Voronoi/Diagram.cs:133-136 | with no more jobs than sites every balanced chunk is non-empty and within the sites |
| VoronoiDiagram.SlicesJoin | Assets/Voronoi/Diagram.cs:133-139 | the first k chunks, one after another, are the sorted sites up to the start of chunk k |
| VoronoiDiagram.JoinStep | Assets/Voronoi/Diagram.cs:133-139 | one more chunk extends the joined prefix by its own sites |
| VoronoiDiagram.ChunksJoin | Assets/Voronoi/Diagram.cs:133-139 | all the chunks, one after another, are exactly the sorted sites |
| VoronoiDiagram.SweepChunk | Assets/Voronoi/Diagram.cs:137-138 | a chunk's sweep keeps its sites, indexes their ids and lists every edge under its two sites |
| VoronoiDiagram.SweepChunks | Assets/Voronoi/Diagram.cs:133-139 | one sweep result per job, job i holding chunk i of the sorted sites |
| VoronoiDiagram.BuildChunks | Assets/Voronoi/Diagram.cs:122-147 | the sites are numbered and sorted by X into a permutation, and each job sweeps its own chunk of them |
| VoronoiDiagram.PairedPrefix | Assets/Voronoi/Diagram.cs:40-46 | dropping the last pair keeps the pairing of results |
| VoronoiDiagram.PairedJoined | Assets/Voronoi/Diagram.cs:40-46 | a round of merges keeps all the sites in their order |
| VoronoiDiagram.MergePair | Assets/Voronoi/Diagram.cs:43 | a merge of two neighbouring results holds the left sites then the right ones, indexed and with regions listing the edges |
| VoronoiDiagram.MergeRound | Assets/Voronoi/Diagram.cs:40-46 | jobs 2k and 2k+1 merge into result k; an odd count of jobs fails at the missing partner |
| VoronoiDiagram.Reduce | Assets/Voronoi/Diagram.cs:40-119 | rounds of merges end in one assembled result holding every site in chunk order; fewer than two jobs fail |
| VoronoiDiagram.RegionLists | Assets/Voronoi/Diagram.cs:166-179 | the region lists built from the region map name only edges of the list, and list under site i exactly the edges with i on one side |
| VoronoiDiagram.Gather | Assets/Voronoi/Diagram.cs:174-177 | one region list holds one edge per stored index, each an edge of the list, and every indexed edge is among them |
| VoronoiDiagram.ListedOf | Assets/Voronoi/Diagram.cs:166-179 | the copied regions list, for each site, exactly the edges that have it on one side |
| VoronoiDiagram.Pipeline | Assets/Voronoi/Diagram.cs:29-119 | no sites fail; otherwise CalcJobsCount chunks of the sorted numbered sites, with a single chunk taken as it is and several merged into one result holding all the sites |
| VoronoiDiagram.Diagram.constructor | Assets/Voronoi/Diagram.cs:22-26 | Sites is the given points, with no edges and no regions yet |
| VoronoiDiagram.Diagram.CopyOut | Assets/Voronoi/Diagram.cs:166-179 | Edges is the result's edges; the copy fails exactly when a stored index names no edge, and otherwise Regions[i] gathers the edges stored under site i |
| VoronoiDiagram.Diagram.Build | Assets/Voronoi/Diagram.cs:27-120 | Sites unchanged; no sites fail; after a build, Edges is the merged result's edges and Regions[i] lists exactly the edges that have site i on one side |

## Left out

- Single-precision floats are modelled as exact reals. Rounding, overflow to infinity and NaN are not modelled. A division by zero yields an unspecified value through the `Numerics` parameter. The `float2`/`double2` casts (for example when enter points are stored at VoronoiMerger.cs:150) change nothing in the model.
- MinHeap.EventHeap: events are ordered by exact comparison of reals. The source's float comparisons with NaN, which never order, are not modelled.
- VoronoiMerge.RayRegionCrossing: the turn by atan2 of the normal (VoronoiMerger.cs:368-383) is modelled as the projection on the normal divided by its length. This is the same y coordinate over reals, not the float result of sin and cos.
- FortuneSweep.Execute: the event array has `(n * 105) / 100` slots for the source's `(int)(n * 1.05f)`. The two differ only where the float product rounds. The capacity of the deleted-event hash map (`math.ceilpow2` of a tenth of the sites) is not modelled, because the map grows and the model keeps a set.
- FortuneSweep.Execute: the event loop runs with a `fuel` bound, and running out of it is a failure. The source loops until the heap is empty, and no termination argument is given for it.
- VoronoiMerge.RunWalk: the walk from the upper to the lower tangent has a `fuel` bound, and exhausting it is a failure. The source's `while` has no bound.
- ConvexHull.MergeHandler: the tangent walks have a `fuel` bound, and exhausting it is a failure.
- VoronoiDiagram.Pipeline: one `fuel` value is handed to every sweep and merge job.
- VoronoiMerge.RemoveFlagged: states which edges are kept (as a multiset) and their number, not the order that the descending `RemoveAtSwapBack` leaves. The order is pinned slot by slot only in the loop invariant (`KeptList`).
- ConvexHull.SortSites: an insertion sort by (X, Y) stands for `NativeArray.Sort`. It proves sorted and a permutation; sites with equal keys may come out in another order than the source's unstable sort gives.
- VoronoiDiagram.SortByX: the same, by X only.
- Collections: `NativeMultiHashMap.GetValuesForKey` is taken to enumerate the values of a key newest first. The contracts that the region scans rely on do not depend on that order.
- The job structs' fields (`Sites`, `Edges`, `Regions`, the id maps) are passed as values and results (`VoronoiMerge.Part`) rather than as fields of a struct. Disposal, `CreateJob` capacities, scheduling and the parallel run of jobs are not modelled; the jobs of a round are run one after another.
- An exception inside a job ends `Build` with a failure. The model does not keep the diagram's half-built state after such a failure.
- VoronoiDiagram.Diagram.Build: requires `maxSitesPerJob > 0`. The source divides by it as a float, and a zero or negative value is not modelled. The `size` bounds given to the constructor are not kept, because the sweep ignores them (they are commented out at FortunesWithConvexHull.cs:145-148).
- VoronoiDiagram.CeilPow2: `math.ceilpow2` is stated by its result (the least power of two, with the 32-bit wrap above 2^30), not by its bit-smearing steps.
- VoronoiDiagram.CalcJobsCount: `(int) math.ceil((float) n / max)` is modelled as the exact ceiling of the quotient. The float quotient may round differently for large counts.
- The debug paths are not modelled: `V_DEBUG` blocks, `Debug.Log`, the debug flag and the rendering in Diagram.cs:62-111, and `VoronoiMerger.DebugOutput` (VoronoiMerger.cs:556 on).
- `FortunesWithConvexHull.BuildRayEnd` (FortunesWithConvexHull.cs:133-210) is a copy of `VGeometry.BuildRayEnd` with the same intercept (line 155). The code as written of both copies is VGeometry.BuildRayEndAsWritten; the sweep and the merge call the corrected VGeometry.BuildRayEnd instead (see Findings and the FortuneSweep.RayEnd line below).
- RedBlackTree.Tree: one class models the three copies of the tree, which do the same steps on the same arrays. The table cites Handlers/RedBlackTree.cs. The insertion also stands for `InsertNode` (Structures/RedBlackTree.cs:45-156) and `InsertSuccessor` (Handlers/RedBlueTree.cs:7-129). The removal also stands for `RemoveNode` (Structures/RedBlackTree.cs:157-315) and Handlers/RedBlueTree.cs:130-296.
- BeachLine.SweepState.Collect: the collapse walks test BeachRemove.Collapses, which compares the neighbour's circle top with the handled circle's top; this is the corrected half of the BeachLine.cs:266-289 Finding. The source compares the handled circle's `YCenter` with the neighbour's top (BeachRemove.CollapsesAsWritten), and then the walks stop at once whenever the radius exceeds Epsilon (BeachRemove.AsWrittenWalksStopAtOnce). The run collected is LeftStop/RightStop's, not LeftStopAsWritten/RightStopAsWritten's.
- BeachLine.SweepState.CollectLeft: the same corrected test for the walk to the left, where BeachLine.cs:277-278 compares `YCenter` with `prevEvent.Y`.
- BeachLine.SweepState.CollectRight: the same corrected test for the walk to the right, where BeachLine.cs:288-289 compares `YCenter` with `nextEvent.Y`.
- BeachLine.SweepState.Unlink: unlinks the run of the corrected walks. With the source's test only the handled arc is unlinked whenever the radius exceeds Epsilon.
- BeachLine.SweepState.RemoveBeachArc: removes the run of the corrected walks. With the source's test a neighbour whose circle closes at the same point stays on the beach line (BeachRemove.WalkWitness).
- BeachLine.SweepState.SplitArc: states the new node, the copy of the split arc and the two half edges, but not the bookkeeping of events: that the split arc's pending id goes into deleted (stated by Divide) and that the circles of the two outer arcs are then checked (stated by CheckBoth). Carrying those facts through the split as well takes the proof of SplitArc beyond the verifier's resource bound.
- BeachLine.SweepState.SplitRest: states the edges, not the two circle checks at BeachLine.cs:157-158 that it makes through CheckBoth, whose contract states them; for the same resource reason.
- BeachLine.SweepState.SplitCase: inherits SplitArc's gap: the cancelled id and the circle checks of lines 122-130 and 157-158 are not in its contract.
- BeachLine.SweepState.BreakpointCase: states the edges but not the two cancellations and the two circle checks of lines 188-202 and 236-237, which CloseBreakpoint states (Closed); lifting Closed through the tree insertion makes this proof unstable under the verifier's resource bound.
- BeachLine.SweepState.AddBeachArc: states where the arc goes, the sites of the arcs, the number of edges and the sweep invariant, not which events are cancelled and scheduled; the cases it dispatches to state that bookkeeping only as far as the lines above say.
- BeachLine.SweepState.Finish: states the joining edge and the removal of the run, not which events the circle checks of prev and next at BeachLine.cs:344-349 record or queue; only the invariant, the cleared run and the unchanged deleted set are kept.
- BeachLine.SweepState.Settle: the same gap; the circle checks of prev and next keep the invariant and the edges, but their recorded events, ids and queue are not stated.
- BeachLine.SweepState.RemoveBeachArc: inherits Settle's gap, so the circle events that the removal schedules for prev and next are not in its contract.
- FortuneSweep.Execute: the returned edges and regions are stated as the compaction of the ghost outputs halfEdges and ends (at most four per site), but those outputs are not tied to the half edges the event loop builds, so the contract does not pin the edges to the sweep. The per-event dispatch of FortunesWithConvexHull.cs:75-93 (a deleted id is dropped, a site event adds an arc, a circle event removes one) is in the body, not in the contract.
- ConvexHull.MergeHandler: does not state that the two tangent walks start at the rightmost point of the left hull and the leftmost point of the right hull (GetRightMostIndex and GetLeftMostIndex at ConvexHull.cs:103-107 and 125-126); only the properties of the tangents it returns are stated.
- FortuneSweep.RayEnd: calls VGeometry.BuildRayEnd, whose intercept is `start.y - slope * start.x`. The source's copy (FortunesWithConvexHull.cs:155) computes `start.x - slope * start.x` (VGeometry.BuildRayEndAsWritten), so a ray end that is neither horizontal nor vertical can differ from the program's.
- FortuneSweep.FoldEdge: inherits the corrected ray end of FortuneSweep.RayEnd. A lone half-edge, or a pair with an unset end, ends where VGeometry.BuildRayEnd puts it (the contract's RayEndOf), while FortunesWithConvexHull.cs:111, 117 and 119 call the copy with the intercept of line 155. For sites (0, 0) and (2, 4) and an unset end at start (1, 2) the program's end is off the ray (VGeometry.AsWrittenRayEndLeavesTheRay) and the model's is on it.
- FortuneSweep.MergeHalfEdges: the same substitution, since every edge of the compaction is folded as FoldEdge folds it (Compacted through Folded).
- FortuneSweep.Execute: inherits the corrected collapse walks (through RemoveBeachArc) and the corrected ray ends (through RayEnd).
- VoronoiMerge.Start: the incoming ray's end uses the corrected intercept of VGeometry.BuildRayEnd, not the one of VGeometry.cs:36.
- VoronoiMerge.Close: the outgoing ray's end uses the corrected intercept of VGeometry.BuildRayEnd, not the one of VGeometry.cs:36.
- VoronoiMerge.WalkHull: inherits the corrected ray end of Start.
- VoronoiMerge.Execute: inherits the corrected ray ends of Start and Close.
- VoronoiDiagram.SweepChunks: chunk i is the balanced slice from i * n / jobs (ChunkSites), not the fixed-size slice of Diagram.cs:133-136 (ChunkStart, ChunkLength). For 10 sites at 4 per job the source's chunks hold 3, 3, 3 and 1 sites and the model's 2, 3, 2 and 3.
- VoronoiDiagram.BuildChunks: the same substitution. Where the source's fixed-size chunks give an empty chunk (9 sites at 3 per job: the fourth chunk is empty and its sweep fails) or a negative length (VoronoiDiagram.NegativeChunkAsWritten, where the slice throws), the model's build goes on.
- VoronoiDiagram.Pipeline: inherits the balanced chunks of BuildChunks and the corrected ray ends of the sweep and the merge.
- VoronoiDiagram.Diagram.Build: inherits the balanced chunks and the corrected ray ends through Pipeline.

## Findings

| source | as written | input that shows it | evidently intended | confidence | as-written member | corrected member |
|---|---|---|---|---|---|---|
| Assets/Voronoi/Structures/VEdge.cs:72-75 | `operator !=` returns `IsEqual(a, b)`, the same as `==` | `Null != Null` is true | `!=` is the negation of `==` | not executed | Edges.InequalityAsWritten, Edges.NullUnequalToItselfAsWritten | Edges.InequalityOperator, Edges.InequalityIsNegation |
| Assets/Voronoi/Helpers/VGeometry.cs:36 | the ray's intercept is `start.x - slope * start.x` | sites (0, 0) and (2, 4) with the edge starting at (1, 2): the line is y = 1.5 - x/2, and the only end kept is (Max, 1.5 - Max/2), off the ray | `start.y - slope * start.x`, the line through `start` | not executed | VGeometry.BuildRayEndAsWritten, VGeometry.AsWrittenRayEndLeavesTheRay | VGeometry.BuildRayEnd, VGeometry.Intercept |
| Assets/Voronoi/Jobs/FortunesWithConvexHull.cs:155 | the copy of BuildRayEnd has the same intercept | the same sites and start as the row above | `start.y - slope * start.x` | not executed | VGeometry.BuildRayEndAsWritten, VGeometry.AsWrittenRayEndLeavesTheRay | VGeometry.BuildRayEnd, VGeometry.Intercept |
| Assets/Voronoi/Handlers/BeachLine.cs:266-289 | the collapse walks compare the handled circle's centre height `YCenter` with the neighbour's recorded event, which is the top of its circle | the unit circle round (0, 1) with two events at its top (0, 2): the neighbour holding the second event is not collected | compare the two circle tops, so a neighbour closing at the same point vanishes with the arc | not executed | BeachRemove.CollapsesAsWritten, BeachRemove.SameCircleMissedAsWritten, BeachRemove.AsWrittenWalksStopAtOnce, BeachRemove.WalkWitness | BeachRemove.Collapses, BeachRemove.LeftStop, BeachRemove.RightStop, BeachRemove.SameCircleCollapses |
| Assets/Voronoi/Diagram.cs:128-136 | the job count is rounded up to a power of two, while every chunk has the fixed size ceil(n / jobs) | 613700 sites at 1024 per job give 1024 jobs of 600 sites, so the last chunk starts at 613800 with length -100 | chunks that split the sites with none empty, here chunk i from i * n / jobs | not executed | VoronoiDiagram.PartitionAsWritten, VoronoiDiagram.NegativeChunkAsWritten | VoronoiDiagram.BalancedPartition, VoronoiDiagram.BuildChunks |
