/** The first part of a removal from the arena red-black tree
    (RedBlackTree.cs:141-205) as transitions of TreeState.State: the removed
    node z leaves the previous/next list, and either its only child takes
    its place or its successor y does. */
module TreeSplice {
  import opened TreeState
  import opened TreeShrink

  /** The other child of p, next to x. */
  ghost function Sib(s: State, x: int, p: int): int
    requires WF(s) && 0 <= p < |s.left|
  {
    if s.left[p] == x then s.right[p] else s.left[p]
  }

  /** x (possibly -1) hangs below p (possibly -1, when x is the root). */
  ghost predicate Hole(s: State, x: int, p: int)
  {
    WF(s) && Ref(s, x) && Ref(s, p) &&
    (x != -1 ==> Live(s, x) && s.parent[x] == p) &&
    (p == -1 ==> x == s.root) &&
    (p != -1 ==> Live(s, p) && (s.left[p] == x || s.right[p] == x))
  }

  /** Every node other than p counts the same black nodes on both sides. */
  ghost predicate BalancedBut(s: State, p: int)
    requires WF(s)
  {
    forall m {:trigger NodeBalanced(s, m)} :: Live(s, m) && m != p ==> NodeBalanced(s, m)
  }

  /** Paths through x below p miss one black node. */
  ghost predicate Short(s: State, x: int, p: int)
    requires WF(s)
  {
    0 <= p < |s.left| ==> Contrib(s, x) + 1 == s.bh[p] && Contrib(s, Sib(s, x, p)) == s.bh[p]
  }

  /** The state after the structural part of a removal: x took the removed
      node's place below p; when the removed colour was black, paths
      through x miss a black node, and otherwise x is not red and the
      tree is balanced. */
  ghost predicate Removed(s: State, x: int, p: int, black: bool)
  {
    Struct(s) && Hole(s, x, p) && BalancedBut(s, p) && RedOk(s, x) &&
    (IsRed(s, s.root) ==> s.root == x) &&
    (black ==> Short(s, x, p)) &&
    (!black ==> !IsRed(s, x) && (0 <= p < |s.left| ==> NodeBalanced(s, p)))
  }

  /** A node's list neighbours are references. */
  lemma ListRefs(s: State, z: int)
    requires Struct(s) && Live(s, z)
    ensures Ref(s, s.previous[z]) && Ref(s, s.next[z])
  {
    assert NodeThreaded(s, z);
    var i := s.pos[z];
    if i > 0 {
      assert s.pos[s.sq[i - 1]] == i - 1;
    }
    if i + 1 < |s.sq| {
      assert s.pos[s.sq[i + 1]] == i + 1;
    }
  }

  // ---------------------------------------------------------------------
  // z has at most one child c (lines 153-156, 162-172, 203-210)

  ghost predicate OneReady(s: State, z: int, c: int)
  {
    Inv(s) && Live(s, z) && (s.left[z] == -1 || s.right[z] == -1) &&
    c == (if s.left[z] < 0 then s.right[z] else s.left[z])
  }

  /** The part of OneReady the link arguments use. */
  ghost predicate OneShape(s: State, z: int, c: int)
  {
    WF(s) && Ordered(s) && Linked(s) && Live(s, z) && (s.left[z] == -1 || s.right[z] == -1) &&
    c == (if s.left[z] < 0 then s.right[z] else s.left[z]) &&
    Ref(s, s.previous[z]) && Ref(s, s.next[z]) && Ref(s, s.parent[z]) && Ref(s, c)
  }

  lemma OneReadyShape(s: State, z: int, c: int)
    requires OneReady(s, z, c)
    ensures OneShape(s, z, c)
  {
    assert NodeThreaded(s, z);
    LinksInRange(s, z);
    var i := s.pos[z];
    if i > 0 {
      assert s.pos[s.sq[i - 1]] == i - 1;
    }
    if i + 1 < |s.sq| {
      assert s.pos[s.sq[i + 1]] == i + 1;
    }
  }

  /** z's links, and those of its child c. */
  lemma OneAtZ(s: State, z: int, c: int)
    requires OneShape(s, z, c)
    ensures NodeLinked(s, z)
    ensures c != -1 ==> Live(s, c) && NodeLinked(s, c) && s.parent[c] == z && c != s.parent[z]
  {
    assert NodeLinked(s, z);
    if c != -1 {
      assert NodeLinked(s, c);
    }
  }

  /** z's parent and its links. */
  lemma OneAtZp(s: State, z: int, c: int)
    requires OneShape(s, z, c) && s.parent[z] != -1
    ensures var zp := s.parent[z];
      Live(s, zp) && NodeLinked(s, zp) && (s.left[zp] == z || s.right[zp] == z) && s.left[zp] != s.right[zp] &&
      zp != z && zp != c
  {
    assert NodeLinked(s, z);
    assert NodeLinked(s, s.parent[z]);
  }

  /** The writes: the list links, c below z's parent (or as the root), and
      c's parent link; the places shift down past z. */
  ghost predicate OneFacts(s: State, t: State, z: int, c: int)
    requires OneShape(s, z, c)
  {
    var k, zp := s.pos[z], s.parent[z];
    Shrunk(s, t, z, k) && Unthreaded(s, t, z) &&
    t.lo == UnshiftAll(s.lo, k + 1) && t.hi == UnshiftAll(s.hi, k) && t.bh == s.bh && t.red == s.red &&
    t.left == (if zp > -1 && s.left[zp] == z then s.left[zp := c] else s.left) &&
    t.right == (if zp > -1 && s.left[zp] != z then s.right[zp := c] else s.right) &&
    t.root == (if zp > -1 then s.root else c) &&
    t.parent == (if c > -1 then s.parent[c := zp] else s.parent)
  }

  /** The writes, read at one slot m. */
  ghost predicate OneAt(s: State, t: State, z: int, c: int, m: int)
    requires OneShape(s, z, c) && 0 <= m < |s.left|
  {
    var k, zp := s.pos[z], s.parent[z];
    WF(t) && |t.left| == |s.left| &&
    t.left[m] == (if m == zp && s.left[zp] == z then c else s.left[m]) &&
    t.right[m] == (if m == zp && s.left[zp] != z then c else s.right[m]) &&
    t.parent[m] == (if m == c then zp else s.parent[m]) &&
    t.red[m] == s.red[m] && t.bh[m] == s.bh[m] &&
    t.lo[m] == Unshift(s.lo[m], k + 1) && t.hi[m] == Unshift(s.hi[m], k)
  }

  lemma OneRead(s: State, t: State, z: int, c: int, m: int)
    requires OneShape(s, z, c) && OneFacts(s, t, z, c) && 0 <= m < |s.left|
    ensures OneAt(s, t, z, c, m)
  {
  }

  lemma OneAtParentLeft(s: State, t: State, z: int, c: int)
    requires OneShape(s, z, c) && OneFacts(s, t, z, c)
    requires 0 <= s.parent[z] < |s.left| && s.left[s.parent[z]] == z
    ensures Live(t, s.parent[z]) && NodeLinked(t, s.parent[z])
  {
    var k, zp := s.pos[z], s.parent[z];
    OneAtZ(s, z, c);
    OneAtZp(s, z, c);
    OneRead(s, t, z, c, zp);
    var r := s.right[zp];
    if r != -1 {
      OneRead(s, t, z, c, r);
    }
    if c != -1 {
      OneRead(s, t, z, c, c);
      ShrunkLive(s, t, z, k, c);
    }
    ShrunkBounds(s, t, z, k, k + 1, zp);
    ShrunkOtherRight(s, t, z, k, k + 1, zp);
    OneUpAt(s, t, z, c, zp);
  }

  lemma OneAtParentRight(s: State, t: State, z: int, c: int)
    requires OneShape(s, z, c) && OneFacts(s, t, z, c)
    requires 0 <= s.parent[z] < |s.left| && s.left[s.parent[z]] != z
    ensures Live(t, s.parent[z]) && NodeLinked(t, s.parent[z])
  {
    var k, zp := s.pos[z], s.parent[z];
    OneAtZ(s, z, c);
    OneAtZp(s, z, c);
    OneRead(s, t, z, c, zp);
    var l := s.left[zp];
    if l != -1 {
      OneRead(s, t, z, c, l);
    }
    if c != -1 {
      OneRead(s, t, z, c, c);
      ShrunkLive(s, t, z, k, c);
    }
    ShrunkBounds(s, t, z, k, k + 1, zp);
    ShrunkOtherLeft(s, t, z, k, k + 1, zp);
    OneUpAt(s, t, z, c, zp);
  }

  /** The parent link of a node other than c is the old one. */
  lemma OneUpAt(s: State, t: State, z: int, c: int, m: int)
    requires OneShape(s, z, c) && OneFacts(s, t, z, c)
    requires Live(s, m) && m != z && m != c
    ensures UpLinked(t, m)
  {
    var k, zp, p := s.pos[z], s.parent[z], s.parent[m];
    OneAtZ(s, z, c);
    assert NodeLinked(s, m);
    OneRead(s, t, z, c, m);
    if p != -1 {
      assert p != z;
      OneRead(s, t, z, c, p);
      if zp != -1 {
        OneAtZp(s, z, c);
      }
    } else {
      assert zp != -1;
    }
    ShrunkOtherUp(s, t, z, k, m);
  }

  /** The child links of a node other than z's parent are the old ones. */
  lemma OneLeftAt(s: State, t: State, z: int, c: int, m: int)
    requires OneShape(s, z, c) && OneFacts(s, t, z, c)
    requires Live(s, m) && m != z && m != s.parent[z]
    ensures Live(t, m) && LeftLinked(t, m)
  {
    var k, l := s.pos[z], s.left[m];
    OneAtZ(s, z, c);
    assert NodeLinked(s, m);
    OneRead(s, t, z, c, m);
    if l != -1 {
      OneRead(s, t, z, c, l);
    }
    ShrunkLive(s, t, z, k, m);
    ShrunkOtherLeft(s, t, z, k, k + 1, m);
  }

  lemma OneRightAt(s: State, t: State, z: int, c: int, m: int)
    requires OneShape(s, z, c) && OneFacts(s, t, z, c)
    requires Live(s, m) && m != z && m != s.parent[z]
    ensures Live(t, m) && RightLinked(t, m)
  {
    var k, r := s.pos[z], s.right[m];
    OneAtZ(s, z, c);
    assert NodeLinked(s, m);
    OneRead(s, t, z, c, m);
    if r != -1 {
      OneRead(s, t, z, c, r);
    }
    ShrunkLive(s, t, z, k, m);
    ShrunkOtherRight(s, t, z, k, k + 1, m);
  }

  lemma OneSidesAt(s: State, t: State, z: int, c: int, m: int)
    requires OneShape(s, z, c) && OneFacts(s, t, z, c)
    requires Live(s, m) && m != z && m != s.parent[z]
    ensures Live(t, m) && LeftLinked(t, m) && RightLinked(t, m)
  {
    OneLeftAt(s, t, z, c, m);
    OneRightAt(s, t, z, c, m);
  }

  lemma OneAtOther(s: State, t: State, z: int, c: int, m: int)
    requires OneShape(s, z, c) && OneFacts(s, t, z, c)
    requires Live(s, m) && m != z && m != c && m != s.parent[z]
    ensures Live(t, m) && NodeLinked(t, m)
  {
    var k := s.pos[z];
    assert NodeLinked(s, m);
    OneRead(s, t, z, c, m);
    ShrunkBounds(s, t, z, k, k + 1, m);
    OneSidesAt(s, t, z, c, m);
    OneUpAt(s, t, z, c, m);
  }

  lemma OneAtChild(s: State, t: State, z: int, c: int)
    requires OneShape(s, z, c) && OneFacts(s, t, z, c) && c != -1
    ensures Live(t, c) && NodeLinked(t, c)
  {
    var k, zp := s.pos[z], s.parent[z];
    OneAtZ(s, z, c);
    OneRead(s, t, z, c, c);
    ShrunkBounds(s, t, z, k, k + 1, c);
    OneSidesAt(s, t, z, c, c);
    if zp != -1 {
      OneAtZp(s, z, c);
      OneRead(s, t, z, c, zp);
      ShrunkLive(s, t, z, k, zp);
    }
  }

  lemma OneRoot(s: State, t: State, z: int, c: int)
    requires OneShape(s, z, c) && OneFacts(s, t, z, c)
    ensures RootOk(t)
  {
    var k, zp := s.pos[z], s.parent[z];
    assert RootOk(s);
    OneAtZ(s, z, c);
    if zp != -1 {
      assert s.root != z;
      OneRead(s, t, z, c, s.root);
      ShrunkLive(s, t, z, k, s.root);
    } else if c != -1 {
      OneRead(s, t, z, c, c);
      ShrunkLive(s, t, z, k, c);
    }
  }

  lemma OneLinked(s: State, t: State, z: int, c: int)
    requires OneShape(s, z, c) && OneFacts(s, t, z, c)
    ensures Linked(t)
  {
    var k, zp := s.pos[z], s.parent[z];
    OneRoot(s, t, z, c);
    forall m | Live(t, m)
      ensures NodeLinked(t, m)
    {
      ShrunkLive(s, t, z, k, m);
      if m == zp && s.left[zp] == z {
        OneAtParentLeft(s, t, z, c);
      } else if m == zp {
        OneAtParentRight(s, t, z, c);
      } else if m == c {
        OneAtChild(s, t, z, c);
      } else {
        OneAtOther(s, t, z, c, m);
      }
    }
  }

  lemma OneFresh(s: State, t: State, z: int, c: int)
    requires OneShape(s, z, c) && OneFacts(s, t, z, c) && Threaded(s) && Fresh(s)
    ensures Fresh(t)
  {
    var k, zp := s.pos[z], s.parent[z];
    assert NodeThreaded(s, z);
    if k > 0 {
      assert s.sq[k - 1] < s.count;
    }
    if k + 1 < |s.sq| {
      assert s.sq[k + 1] < s.count;
    }
    if zp != -1 {
      OneAtZp(s, z, c);
      assert s.sq[s.pos[zp]] < s.count;
    }
  }

  lemma OneStruct(s: State, t: State, z: int, c: int)
    requires OneShape(s, z, c) && OneFacts(s, t, z, c) && Threaded(s) && Fresh(s)
    ensures Struct(t)
  {
    var k := s.pos[z];
    ShrunkOrdered(s, t, z, k);
    OneLinked(s, t, z, c);
    forall m | Live(t, m)
      ensures NodeThreaded(t, m)
    {
      ShrunkThreaded(s, t, z, k, m);
    }
    OneFresh(s, t, z, c);
  }

  lemma OneBalancedAt(s: State, t: State, z: int, c: int, m: int)
    requires OneShape(s, z, c) && OneFacts(s, t, z, c) && Balanced(s) && Live(t, m) && m != s.parent[z]
    ensures NodeBalanced(t, m)
  {
    ShrunkLive(s, t, z, s.pos[z], m);
    assert NodeBalanced(s, m);
    OneRead(s, t, z, c, m);
    var l, r := s.left[m], s.right[m];
    if 0 <= l < |s.left| {
      OneRead(s, t, z, c, l);
    }
    if 0 <= r < |s.left| {
      OneRead(s, t, z, c, r);
    }
  }

  lemma OneRedAt(s: State, t: State, z: int, c: int, m: int)
    requires OneShape(s, z, c) && OneFacts(s, t, z, c) && RedOk(s, -1) && Live(t, m)
    ensures NodeRedOk(t, m, c)
  {
    ShrunkLive(s, t, z, s.pos[z], m);
    assert NodeRedOk(s, m, -1);
    OneRead(s, t, z, c, m);
    var l, r := s.left[m], s.right[m];
    if 0 <= l < |s.left| {
      OneRead(s, t, z, c, l);
    }
    if 0 <= r < |s.left| {
      OneRead(s, t, z, c, r);
    }
  }

  /** Below z's parent, c stands where z stood. */
  lemma OneParentHole(s: State, t: State, z: int, c: int)
    requires OneShape(s, z, c) && OneFacts(s, t, z, c) && s.parent[z] != -1
    ensures Hole(t, c, s.parent[z])
  {
    var k, zp := s.pos[z], s.parent[z];
    OneAtZ(s, z, c);
    OneAtZp(s, z, c);
    OneRead(s, t, z, c, zp);
    ShrunkLive(s, t, z, k, zp);
    if c != -1 {
      OneRead(s, t, z, c, c);
      ShrunkLive(s, t, z, k, c);
    }
  }

  /** Through c, paths below z's parent count one black node fewer when z
      was black; through the other child, as many as before. */
  lemma OneParentShort(s: State, t: State, z: int, c: int)
    requires OneShape(s, z, c) && OneFacts(s, t, z, c) && Balanced(s) && s.parent[z] != -1
    ensures var zp := s.parent[z];
      Contrib(t, c) + (if s.red[z] then 0 else 1) == s.bh[zp] &&
      Contrib(t, Sib(t, c, zp)) == s.bh[zp] && t.bh[zp] == s.bh[zp]
  {
    var zp := s.parent[z];
    OneAtZ(s, z, c);
    OneAtZp(s, z, c);
    assert NodeBalanced(s, zp) && NodeBalanced(s, z);
    OneRead(s, t, z, c, zp);
    var o := Sib(s, z, zp);
    assert Sib(t, c, zp) == o;
    if o != -1 {
      OneRead(s, t, z, c, o);
    }
    if c != -1 {
      OneRead(s, t, z, c, c);
    }
  }

  lemma OneBalanced(s: State, t: State, z: int, c: int)
    requires OneShape(s, z, c) && OneFacts(s, t, z, c) && Balanced(s)
    ensures BalancedBut(t, s.parent[z])
  {
    forall m | Live(t, m) && m != s.parent[z]
      ensures NodeBalanced(t, m)
    {
      OneBalancedAt(s, t, z, c, m);
    }
  }

  lemma OneRedOk(s: State, t: State, z: int, c: int)
    requires OneShape(s, z, c) && OneFacts(s, t, z, c) && RedOk(s, -1)
    ensures RedOk(t, c)
  {
    forall m | Live(t, m)
      ensures NodeRedOk(t, m, c)
    {
      OneRedAt(s, t, z, c, m);
    }
  }

  /** A red root after the removal is c, which took the root's place. */
  lemma OneRootColour(s: State, t: State, z: int, c: int)
    requires OneShape(s, z, c) && OneFacts(s, t, z, c) && RootBlack(s) && Struct(t)
    ensures IsRed(t, t.root) ==> t.root == c
  {
    if s.parent[z] != -1 {
      OneAtZ(s, z, c);
      assert s.root != z;
      OneRead(s, t, z, c, s.root);
    }
  }

  /** Without a parent, c becomes the root. */
  lemma OneRootHole(s: State, t: State, z: int, c: int)
    requires OneShape(s, z, c) && OneFacts(s, t, z, c) && s.parent[z] == -1
    ensures Hole(t, c, -1)
  {
    if c != -1 {
      OneAtZ(s, z, c);
      OneRead(s, t, z, c, c);
      ShrunkLive(s, t, z, s.pos[z], c);
    }
  }

  /** A red z has black children, so c is not red, and z's parent keeps
      its black heights. */
  lemma OneRedGone(s: State, t: State, z: int, c: int)
    requires OneShape(s, z, c) && OneFacts(s, t, z, c) && Balanced(s) && RedOk(s, -1) && s.red[z]
    ensures !IsRed(t, c) && (0 <= s.parent[z] < |s.left| ==> NodeBalanced(t, s.parent[z]))
  {
    var zp := s.parent[z];
    assert NodeRedOk(s, z, -1);
    if c != -1 {
      OneRead(s, t, z, c, c);
    }
    if zp != -1 {
      OneAtZp(s, z, c);
      assert NodeBalanced(s, zp);
      OneRead(s, t, z, c, zp);
      OneParentShort(s, t, z, c);
    }
  }

  /** With at most one child, c takes z's place below z's parent; what is
      missing is z's colour. */
  lemma OneRemoved(s: State, t: State, z: int, c: int)
    requires Inv(s) && OneShape(s, z, c) && OneFacts(s, t, z, c)
    ensures Removed(t, c, s.parent[z], !s.red[z])
  {
    var zp := s.parent[z];
    OneStruct(s, t, z, c);
    OneBalanced(s, t, z, c);
    OneRedOk(s, t, z, c);
    OneRootColour(s, t, z, c);
    if zp != -1 {
      OneParentHole(s, t, z, c);
      OneParentShort(s, t, z, c);
    } else {
      OneRootHole(s, t, z, c);
    }
    if s.red[z] {
      OneRedGone(s, t, z, c);
    }
  }

  /** The state after lines 141-145 and 162-172 of the removal of z from
      s: the list skips z and y stands in z's place below z's parent; all
      else, the ghost fields included, is as in s. */
  ghost function DetachTarget(s: State, z: int, y: int): State
    requires WF(s) && 0 <= z < |s.left| && Ref(s, s.previous[z]) && Ref(s, s.next[z]) && Ref(s, s.parent[z])
  {
    var zp, pv, nx := s.parent[z], s.previous[z], s.next[z];
    s.(next := if pv > -1 then s.next[pv := nx] else s.next,
       previous := if nx > -1 then s.previous[nx := pv] else s.previous,
       left := if zp > -1 && s.left[zp] == z then s.left[zp := y] else s.left,
       right := if zp > -1 && s.left[zp] != z then s.right[zp := y] else s.right,
       root := if zp > -1 then s.root else y)
  }

  /** The state after lines 202-211, from the state u of lines 141-172:
      z's child c hangs below z's parent, and the in-order bookkeeping
      loses z's place. */
  ghost function OneTarget(s: State, u: State, z: int, c: int): State
    requires OneShape(s, z, c) && u == DetachTarget(s, z, c)
  {
    var k := s.pos[z];
    State(u.left, u.right, if c > -1 then u.parent[c := s.parent[z]] else u.parent,
          u.previous, u.next, u.red, u.root, u.count,
          s.sq[..k] + s.sq[k + 1..], UnshiftAll(s.pos, k + 1),
          UnshiftAll(s.lo, k + 1), UnshiftAll(s.hi, k), s.bh)
  }

  /** That state is z's removal. */
  lemma OneTargetRemoved(s: State, u: State, z: int, c: int)
    requires Inv(s) && OneShape(s, z, c) && u == DetachTarget(s, z, c)
    ensures Removed(OneTarget(s, u, z, c), c, s.parent[z], !s.red[z])
  {
    var t := OneTarget(s, u, z, c);
    DropPlaces(s.sq, s.pos[z]);
    assert OneFacts(s, t, z, c);
    OneRemoved(s, t, z, c);
  }
}
