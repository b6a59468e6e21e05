/** The second case of the structural part of a removal from the arena
    red-black tree (RedBlackTree.cs:174-201): z has two children, and its
    in-order successor y, the first node of z's right subtree, takes z's
    place and colour. When y is not z's right child (the deep case), y's
    right child x takes y's old place below y's parent yp; otherwise x
    stays below y. */
module TreeSucc {
  import opened TreeState
  import opened TreeShrink
  import opened TreeSplice

  /** z has two children and y is the node just after z in order; y has
      no left child. */
  ghost predicate TwoShape(s: State, z: int, y: int)
  {
    WF(s) && Ordered(s) && Linked(s) && Live(s, z) && s.left[z] != -1 && s.right[z] != -1 &&
    Ref(s, s.previous[z]) && Ref(s, s.next[z]) && Ref(s, s.parent[z]) &&
    Ref(s, s.left[z]) && Ref(s, s.right[z]) &&
    Live(s, y) && s.pos[y] == s.pos[z] + 1 && s.left[y] == -1 &&
    Ref(s, s.right[y]) && 0 <= s.parent[y] < |s.left|
  }

  /** The first node of z's right subtree, as GetFirst finds it, is the
      node after z. */
  lemma TwoReady(s: State, z: int, y: int)
    requires Inv(s) && Live(s, z) && s.left[z] != -1 && 0 <= s.right[z] < |s.left|
    requires 0 <= s.lo[s.right[z]] < |s.sq| && y == s.sq[s.lo[s.right[z]]] && Live(s, y) && s.left[y] == -1
    ensures TwoShape(s, z, y)
  {
    assert NodeThreaded(s, z);
    LinksInRange(s, z);
    LinksInRange(s, y);
    assert RootOk(s);
    var i := s.pos[z];
    if i > 0 {
      assert s.pos[s.sq[i - 1]] == i - 1;
    }
  }

  /** z's two children. */
  lemma TwoAtZ(s: State, z: int, y: int)
    requires TwoShape(s, z, y)
    ensures var k, zl, zr := s.pos[z], s.left[z], s.right[z];
      NodeLinked(s, z) && Live(s, zl) && NodeLinked(s, zl) && Live(s, zr) && NodeLinked(s, zr) &&
      s.parent[zl] == z && s.parent[zr] == z && s.lo[zl] == s.lo[z] && s.hi[zl] == k - 1 &&
      s.lo[zr] == k + 1 && s.hi[zr] == s.hi[z] && s.pos[zl] < k && s.pos[zr] > k
  {
    assert NodeLinked(s, z);
    assert NodeLinked(s, s.left[z]);
    assert NodeLinked(s, s.right[z]);
  }

  /** y, its parent yp and its right child x. */
  lemma TwoAtY(s: State, z: int, y: int)
    requires TwoShape(s, z, y)
    ensures var k, zr, yp, x := s.pos[z], s.right[z], s.parent[y], s.right[y];
      NodeLinked(s, y) && s.lo[y] == k + 1 && Live(s, yp) && NodeLinked(s, yp) &&
      (y == zr ==> yp == z) &&
      (y != zr ==> yp != z && s.left[yp] == y && s.right[yp] != y && s.pos[yp] == s.hi[y] + 1 &&
                   s.lo[yp] == k + 1 && s.pos[zr] > k + 1) &&
      (x != -1 ==> Live(s, x) && NodeLinked(s, x) && s.parent[x] == y && s.lo[x] == k + 2 && s.hi[x] == s.hi[y]) &&
      (x == -1 ==> s.hi[y] == k + 1)
  {
    var k, zr, yp, x := s.pos[z], s.right[z], s.parent[y], s.right[y];
    TwoAtZ(s, z, y);
    assert NodeLinked(s, y);
    assert NodeLinked(s, yp);
    if y != zr {
      assert s.pos[zr] != k + 1;
    }
    if x != -1 {
      assert NodeLinked(s, x);
    }
  }

  /** The parent links into the nodes whose parent is written, and the
      nodes that are told apart by them. */
  lemma TwoParents(s: State, z: int, y: int)
    requires TwoShape(s, z, y)
    ensures s.parent[s.left[z]] == z && s.left[z] != z && s.parent[s.right[z]] == z && s.left[z] != y
    ensures s.right[y] != y && s.parent[y] != y && y != s.parent[z] && s.parent[y] != s.parent[z]
    ensures s.right[y] != -1 ==> s.parent[s.right[y]] == y
    ensures y != s.right[z] ==> s.right[s.parent[y]] != y
    ensures y == s.right[z] ==> s.parent[y] == z
  {
    TwoAtZ(s, z, y);
    TwoAtY(s, z, y);
    if s.parent[z] != -1 {
      TwoAtZp(s, z, y);
    }
  }

  /** z's parent stands outside z's subtree. */
  lemma TwoAtZp(s: State, z: int, y: int)
    requires TwoShape(s, z, y) && s.parent[z] != -1
    ensures var k, zp := s.pos[z], s.parent[z];
      Live(s, zp) && NodeLinked(s, zp) && (s.left[zp] == z || s.right[zp] == z) && s.left[zp] != s.right[zp] &&
      s.lo[zp] <= k && (s.left[zp] == z ==> s.pos[zp] == s.hi[z] + 1 && s.lo[z] == s.lo[zp]) &&
      (s.left[zp] != z ==> s.lo[z] == s.pos[zp] + 1 && s.hi[z] == s.hi[zp]) &&
      zp != z && zp != y && zp != s.left[z] && zp != s.right[z] && zp != s.parent[y] && zp != s.right[y]
  {
    var zp := s.parent[z];
    TwoAtZ(s, z, y);
    TwoAtY(s, z, y);
    assert NodeLinked(s, zp);
  }

  /** The writes of lines 162-172 and 174-201, and the list links of lines
      141-144; y takes z's place, its interval and black height. */
  ghost predicate TwoFacts(s: State, t: State, z: int, y: int)
    requires TwoShape(s, z, y)
  {
    var k, zp, zl, zr, yp, x := s.pos[z], s.parent[z], s.left[z], s.right[z], s.parent[y], s.right[y];
    var left0 := if zp > -1 && s.left[zp] == z then s.left[zp := y] else s.left;
    var right0 := if zp > -1 && s.left[zp] != z then s.right[zp := y] else s.right;
    var parent0 := s.parent[zl := y][y := zp];
    Shrunk(s, t, z, k) && Unthreaded(s, t, z) &&
    t.lo == UnshiftAll(s.lo, k + 2)[y := s.lo[z]] && t.hi == UnshiftAll(s.hi, k)[y := s.hi[z] - 1] &&
    t.bh == s.bh[y := s.bh[z]] && t.red == s.red[y := s.red[z]] &&
    t.root == (if zp > -1 then s.root else y) &&
    (y != zr ==>
      t.left == left0[y := zl][yp := x] && t.right == right0[y := zr] &&
      t.parent == (if x > -1 then parent0[zr := y][x := yp] else parent0[zr := y])) &&
    (y == zr ==>
      t.left == left0[y := zl] && t.right == right0 &&
      t.parent == (if x > -1 then parent0[x := y] else parent0))
  }

  /** The child links, read at one slot m (latest write first). */
  ghost predicate TwoAtL(s: State, t: State, z: int, y: int, m: int)
    requires TwoShape(s, z, y) && 0 <= m < |s.left| && |t.left| == |s.left| && |t.right| == |s.left|
  {
    var zp, zl, zr, yp, x := s.parent[z], s.left[z], s.right[z], s.parent[y], s.right[y];
    var deep := y != zr;
    t.left[m] == (if deep && m == yp then x else if m == y then zl
                  else if m == zp && s.left[zp] == z then y else s.left[m]) &&
    t.right[m] == (if deep && m == y then zr else if m == zp && s.left[zp] != z then y else s.right[m])
  }

  /** The parent link at m. */
  ghost predicate TwoAtP(s: State, t: State, z: int, y: int, m: int)
    requires TwoShape(s, z, y) && 0 <= m < |s.left| && |t.parent| == |s.left|
  {
    var zp, zl, zr, yp, x := s.parent[z], s.left[z], s.right[z], s.parent[y], s.right[y];
    var deep := y != zr;
    t.parent[m] == (if x > -1 && m == x then (if deep then yp else y) else if deep && m == zr then y
                    else if m == y then zp else if m == zl then y else s.parent[m])
  }

  /** The colour, black height and interval at m. */
  ghost predicate TwoAtM(s: State, t: State, z: int, y: int, m: int)
    requires TwoShape(s, z, y) && 0 <= m < |s.left| && WF(t) && |t.left| == |s.left|
  {
    var k := s.pos[z];
    t.red[m] == (if m == y then s.red[z] else s.red[m]) && t.bh[m] == (if m == y then s.bh[z] else s.bh[m]) &&
    t.lo[m] == (if m == y then s.lo[z] else Unshift(s.lo[m], k + 2)) &&
    t.hi[m] == (if m == y then s.hi[z] - 1 else Unshift(s.hi[m], k))
  }

  /** The writes at every slot, and the shifted places. */
  ghost predicate TwoAll(s: State, t: State, z: int, y: int)
    requires TwoShape(s, z, y)
  {
    Shrunk(s, t, z, s.pos[z]) && t.root == (if s.parent[z] > -1 then s.root else y) &&
    |t.left| == |s.left| &&
    (forall m {:trigger TwoAtL(s, t, z, y, m)} :: 0 <= m < |s.left| ==> TwoAtL(s, t, z, y, m)) &&
    (forall m {:trigger TwoAtP(s, t, z, y, m)} :: 0 <= m < |s.left| ==> TwoAtP(s, t, z, y, m)) &&
    (forall m {:trigger TwoAtM(s, t, z, y, m)} :: 0 <= m < |s.left| ==> TwoAtM(s, t, z, y, m))
  }

  lemma TwoRead(s: State, t: State, z: int, y: int)
    requires TwoShape(s, z, y) && TwoFacts(s, t, z, y)
    ensures TwoAll(s, t, z, y)
  {
    forall m | 0 <= m < |s.left|
      ensures TwoAtL(s, t, z, y, m)
    {
      TwoReadLeft(s, t, z, y, m);
      TwoReadRight(s, t, z, y, m);
    }
    forall m | 0 <= m < |s.left|
      ensures TwoAtP(s, t, z, y, m)
    {
      TwoReadParent(s, t, z, y, m);
    }
    forall m | 0 <= m < |s.left|
      ensures TwoAtM(s, t, z, y, m)
    {
      TwoReadMarks(s, t, z, y, m);
    }
  }

  lemma TwoReadMarks(s: State, t: State, z: int, y: int, m: int)
    requires TwoShape(s, z, y) && TwoFacts(s, t, z, y) && 0 <= m < |s.left|
    ensures TwoAtM(s, t, z, y, m)
  {
  }

  lemma TwoReadLeft(s: State, t: State, z: int, y: int, m: int)
    requires TwoShape(s, z, y) && TwoFacts(s, t, z, y) && 0 <= m < |s.left|
    ensures t.left[m] == (if y != s.right[z] && m == s.parent[y] then s.right[y] else if m == y then s.left[z]
                  else if m == s.parent[z] && s.left[s.parent[z]] == z then y else s.left[m])
  {
  }

  lemma TwoReadRight(s: State, t: State, z: int, y: int, m: int)
    requires TwoShape(s, z, y) && TwoFacts(s, t, z, y) && 0 <= m < |s.left|
    ensures t.right[m] == (if y != s.right[z] && m == y then s.right[z]
                  else if m == s.parent[z] && s.left[s.parent[z]] != z then y else s.right[m])
  {
  }

  lemma TwoReadParent(s: State, t: State, z: int, y: int, m: int)
    requires TwoShape(s, z, y) && TwoFacts(s, t, z, y) && 0 <= m < |s.left|
    ensures var x := s.right[y];
      t.parent[m] == (if x > -1 && m == x then (if y != s.right[z] then s.parent[y] else y)
                      else if y != s.right[z] && m == s.right[z] then y
                      else if m == y then s.parent[z] else if m == s.left[z] then y else s.parent[m])
  {
  }

  // ---------------------------------------------------------------------
  // Links of the nodes whose links are not written

  /** A node whose left link is not written keeps it. */
  lemma TwoLeftAt(s: State, t: State, z: int, y: int, m: int)
    requires TwoShape(s, z, y) && TwoAll(s, t, z, y)
    requires Live(s, m) && m != z && m != y && m != s.parent[y]
    requires m == s.parent[z] ==> s.left[m] != z
    ensures Live(t, m) && LeftLinked(t, m)
  {
    var k, l := s.pos[z], s.left[m];
    assert NodeLinked(s, m);
    assert TwoAtL(s, t, z, y, m) && TwoAtM(s, t, z, y, m);
    if l != -1 {
      TwoParents(s, z, y);
      assert NodeLinked(s, z);
      assert TwoAtP(s, t, z, y, l) && TwoAtM(s, t, z, y, l);
    }
    ShrunkLive(s, t, z, k, m);
    ShrunkOtherLeft(s, t, z, k, k + 2, m);
  }

  lemma TwoRightAt(s: State, t: State, z: int, y: int, m: int)
    requires TwoShape(s, z, y) && TwoAll(s, t, z, y)
    requires Live(s, m) && m != z && m != y
    requires m == s.parent[z] ==> s.left[m] == z
    ensures Live(t, m) && RightLinked(t, m)
  {
    var k, r := s.pos[z], s.right[m];
    assert NodeLinked(s, m);
    assert TwoAtL(s, t, z, y, m) && TwoAtM(s, t, z, y, m);
    if r != -1 {
      TwoParents(s, z, y);
      assert NodeLinked(s, z);
      assert TwoAtP(s, t, z, y, r) && TwoAtM(s, t, z, y, r);
    }
    ShrunkLive(s, t, z, k, m);
    ShrunkOtherRight(s, t, z, k, k + 2, m);
  }

  /** A node whose parent link is not written keeps it. */
  lemma TwoUpAt(s: State, t: State, z: int, y: int, m: int)
    requires TwoShape(s, z, y) && TwoAll(s, t, z, y)
    requires Live(s, m) && m != z && m != y && m != s.left[z] && m != s.right[z] && m != s.right[y]
    ensures UpLinked(t, m)
  {
    var k, zp, p := s.pos[z], s.parent[z], s.parent[m];
    assert NodeLinked(s, m);
    TwoAtY(s, z, y);
    assert TwoAtP(s, t, z, y, m);
    if p != -1 {
      assert TwoAtL(s, t, z, y, p);
      LinksInRange(s, m);
      if zp != -1 {
        TwoAtZp(s, z, y);
      }
    } else {
      assert RootOk(s);
      assert NodeLinked(s, z);
    }
    ShrunkOtherUp(s, t, z, k, m);
  }

  lemma TwoBoundsAt(s: State, t: State, z: int, y: int, m: int)
    requires TwoShape(s, z, y) && TwoAll(s, t, z, y)
    requires Live(s, m) && m != z && m != y
    ensures Live(t, m) && 0 <= t.lo[m] <= t.pos[m] <= t.hi[m] < |t.sq|
  {
    var k := s.pos[z];
    assert NodeLinked(s, m);
    assert TwoAtM(s, t, z, y, m);
    ShrunkBounds(s, t, z, k, k + 2, m);
  }

  // ---------------------------------------------------------------------
  // Links of the written nodes

  /** z's parent now has y where it had z. */
  lemma TwoParentLeft(s: State, t: State, z: int, y: int)
    requires TwoShape(s, z, y) && TwoAll(s, t, z, y)
    requires 0 <= s.parent[z] < |s.left| && s.left[s.parent[z]] == z
    ensures Live(t, s.parent[z]) && LeftLinked(t, s.parent[z])
  {
    var k, zp := s.pos[z], s.parent[z];
    TwoAtZp(s, z, y);
    TwoParents(s, z, y);
    assert NodeLinked(s, z);
    assert TwoAtL(s, t, z, y, zp) && TwoAtM(s, t, z, y, zp);
    assert TwoAtP(s, t, z, y, y) && TwoAtM(s, t, z, y, y);
    ShrunkLive(s, t, z, k, zp);
    ShrunkLive(s, t, z, k, y);
  }

  lemma TwoParentRight(s: State, t: State, z: int, y: int)
    requires TwoShape(s, z, y) && TwoAll(s, t, z, y)
    requires 0 <= s.parent[z] < |s.left| && s.left[s.parent[z]] != z
    ensures Live(t, s.parent[z]) && RightLinked(t, s.parent[z])
  {
    var k, zp := s.pos[z], s.parent[z];
    TwoAtZp(s, z, y);
    TwoParents(s, z, y);
    assert NodeLinked(s, z);
    assert TwoAtL(s, t, z, y, zp) && TwoAtM(s, t, z, y, zp);
    assert TwoAtP(s, t, z, y, y) && TwoAtM(s, t, z, y, y);
    ShrunkLive(s, t, z, k, zp);
    ShrunkLive(s, t, z, k, y);
  }

  lemma TwoAtParent(s: State, t: State, z: int, y: int)
    requires TwoShape(s, z, y) && TwoAll(s, t, z, y) && 0 <= s.parent[z] < |s.left|
    ensures Live(t, s.parent[z]) && NodeLinked(t, s.parent[z])
  {
    var zp := s.parent[z];
    TwoAtZp(s, z, y);
    TwoBoundsAt(s, t, z, y, zp);
    if s.left[zp] == z {
      TwoParentLeft(s, t, z, y);
      TwoRightAt(s, t, z, y, zp);
    } else {
      TwoParentRight(s, t, z, y);
      if zp != s.parent[y] {
        TwoLeftAt(s, t, z, y, zp);
      }
    }
    TwoUpAt(s, t, z, y, zp);
  }

  /** y's new left child is z's left child. */
  lemma TwoYLeft(s: State, t: State, z: int, y: int)
    requires TwoShape(s, z, y) && TwoAll(s, t, z, y)
    ensures Live(t, y) && LeftLinked(t, y)
  {
    var k, zl := s.pos[z], s.left[z];
    TwoAtZ(s, z, y);
    TwoAtY(s, z, y);
    assert TwoAtL(s, t, z, y, y) && TwoAtM(s, t, z, y, y);
    assert TwoAtP(s, t, z, y, zl) && TwoAtM(s, t, z, y, zl);
    ShrunkLive(s, t, z, k, y);
    ShrunkLive(s, t, z, k, zl);
  }

  /** In the deep case y's new right child is z's right child. */
  lemma TwoYRightDeep(s: State, t: State, z: int, y: int)
    requires TwoShape(s, z, y) && TwoAll(s, t, z, y) && y != s.right[z]
    ensures Live(t, y) && RightLinked(t, y)
  {
    var k, zr := s.pos[z], s.right[z];
    TwoAtZ(s, z, y);
    TwoAtY(s, z, y);
    assert TwoAtL(s, t, z, y, y) && TwoAtM(s, t, z, y, y);
    assert TwoAtP(s, t, z, y, zr) && TwoAtM(s, t, z, y, zr);
    ShrunkLive(s, t, z, k, y);
    ShrunkLive(s, t, z, k, zr);
  }

  /** Otherwise y keeps its right child x. */
  lemma TwoYRightNear(s: State, t: State, z: int, y: int)
    requires TwoShape(s, z, y) && TwoAll(s, t, z, y) && y == s.right[z]
    ensures Live(t, y) && RightLinked(t, y)
  {
    var k, x := s.pos[z], s.right[y];
    TwoAtZ(s, z, y);
    TwoAtY(s, z, y);
    assert TwoAtL(s, t, z, y, y) && TwoAtM(s, t, z, y, y);
    ShrunkLive(s, t, z, k, y);
    if x != -1 {
      assert TwoAtP(s, t, z, y, x) && TwoAtM(s, t, z, y, x);
      ShrunkLive(s, t, z, k, x);
    }
  }

  lemma TwoYUp(s: State, t: State, z: int, y: int)
    requires TwoShape(s, z, y) && TwoAll(s, t, z, y)
    ensures Live(t, y) && UpLinked(t, y)
  {
    var k, zp := s.pos[z], s.parent[z];
    TwoAtZ(s, z, y);
    TwoAtY(s, z, y);
    assert TwoAtP(s, t, z, y, y);
    ShrunkLive(s, t, z, k, y);
    if zp != -1 {
      TwoAtZp(s, z, y);
      assert TwoAtL(s, t, z, y, zp);
      ShrunkLive(s, t, z, k, zp);
    }
  }

  lemma TwoYBounds(s: State, t: State, z: int, y: int)
    requires TwoShape(s, z, y) && TwoAll(s, t, z, y)
    ensures Live(t, y) && 0 <= t.lo[y] <= t.pos[y] <= t.hi[y] < |t.sq|
  {
    var k := s.pos[z];
    TwoAtZ(s, z, y);
    assert NodeLinked(s, s.right[z]);
    assert TwoAtM(s, t, z, y, y);
    ShrunkLive(s, t, z, k, y);
  }

  lemma TwoAtY'(s: State, t: State, z: int, y: int)
    requires TwoShape(s, z, y) && TwoAll(s, t, z, y)
    ensures Live(t, y) && NodeLinked(t, y)
  {
    TwoYBounds(s, t, z, y);
    TwoYLeft(s, t, z, y);
    if y != s.right[z] {
      TwoYRightDeep(s, t, z, y);
    } else {
      TwoYRightNear(s, t, z, y);
    }
    TwoYUp(s, t, z, y);
  }

  /** z's left child hangs below y. */
  lemma TwoAtZl(s: State, t: State, z: int, y: int)
    requires TwoShape(s, z, y) && TwoAll(s, t, z, y)
    ensures Live(t, s.left[z]) && NodeLinked(t, s.left[z])
  {
    var k, zl := s.pos[z], s.left[z];
    TwoAtZ(s, z, y);
    TwoAtY(s, z, y);
    if s.parent[z] != -1 {
      TwoAtZp(s, z, y);
    }
    TwoBoundsAt(s, t, z, y, zl);
    TwoLeftAt(s, t, z, y, zl);
    TwoRightAt(s, t, z, y, zl);
    assert TwoAtP(s, t, z, y, zl);
    assert TwoAtL(s, t, z, y, y);
    ShrunkLive(s, t, z, k, y);
  }

  /** In the deep case z's right child hangs below y. */
  lemma TwoZrUp(s: State, t: State, z: int, y: int)
    requires TwoShape(s, z, y) && TwoAll(s, t, z, y) && y != s.right[z]
    ensures Live(t, s.right[z]) && UpLinked(t, s.right[z])
  {
    var k, zr := s.pos[z], s.right[z];
    TwoAtZ(s, z, y);
    TwoAtY(s, z, y);
    assert TwoAtP(s, t, z, y, zr);
    assert TwoAtL(s, t, z, y, y);
    ShrunkLive(s, t, z, k, zr);
    ShrunkLive(s, t, z, k, y);
  }

  /** In the deep case yp's new left child is x. */
  lemma TwoYpLeft(s: State, t: State, z: int, y: int)
    requires TwoShape(s, z, y) && TwoAll(s, t, z, y) && y != s.right[z]
    ensures Live(t, s.parent[y]) && LeftLinked(t, s.parent[y])
  {
    var k, yp, x := s.pos[z], s.parent[y], s.right[y];
    TwoAtY(s, z, y);
    assert TwoAtL(s, t, z, y, yp) && TwoAtM(s, t, z, y, yp);
    ShrunkLive(s, t, z, k, yp);
    if x != -1 {
      assert TwoAtP(s, t, z, y, x) && TwoAtM(s, t, z, y, x);
      ShrunkLive(s, t, z, k, x);
    }
  }

  /** In the deep case x hangs below yp. */
  lemma TwoXUp(s: State, t: State, z: int, y: int)
    requires TwoShape(s, z, y) && TwoAll(s, t, z, y) && y != s.right[z] && s.right[y] != -1
    ensures Live(t, s.right[y]) && UpLinked(t, s.right[y])
  {
    var k, yp, x := s.pos[z], s.parent[y], s.right[y];
    TwoAtY(s, z, y);
    assert TwoAtL(s, t, z, y, yp);
    assert TwoAtP(s, t, z, y, x);
    ShrunkLive(s, t, z, k, yp);
    ShrunkLive(s, t, z, k, x);
  }

  /** The nodes of the deep case other than y and z's parent: z's right
      child, y's parent and x. */
  lemma TwoAtDeep(s: State, t: State, z: int, y: int, m: int)
    requires TwoShape(s, z, y) && TwoAll(s, t, z, y) && y != s.right[z]
    requires Live(s, m) && (m == s.right[z] || m == s.parent[y] || m == s.right[y])
    ensures Live(t, m) && NodeLinked(t, m)
  {
    var zr, yp, x := s.right[z], s.parent[y], s.right[y];
    TwoAtZ(s, z, y);
    TwoAtY(s, z, y);
    if s.parent[z] != -1 {
      TwoAtZp(s, z, y);
    }
    TwoBoundsAt(s, t, z, y, m);
    TwoRightAt(s, t, z, y, m);
    if m == yp {
      TwoYpLeft(s, t, z, y);
    } else {
      TwoLeftAt(s, t, z, y, m);
    }
    if m == zr {
      TwoZrUp(s, t, z, y);
    } else if m == x {
      TwoXUp(s, t, z, y);
    } else {
      TwoUpAt(s, t, z, y, m);
    }
  }

  /** Any other node keeps its links. */
  lemma TwoAtOther(s: State, t: State, z: int, y: int, m: int)
    requires TwoShape(s, z, y) && TwoAll(s, t, z, y) && Live(s, m)
    requires m != z && m != y && m != s.parent[z] && m != s.left[z]
    requires y != s.right[z] ==> m != s.right[z] && m != s.parent[y] && m != s.right[y]
    ensures Live(t, m) && NodeLinked(t, m)
  {
    TwoAtY(s, z, y);
    TwoBoundsAt(s, t, z, y, m);
    TwoLeftAt(s, t, z, y, m);
    TwoRightAt(s, t, z, y, m);
    if m == s.right[y] {
      // the near case: x keeps its parent y, whose right link stays
      var k := s.pos[z];
      assert TwoAtP(s, t, z, y, m);
      assert TwoAtL(s, t, z, y, y);
      ShrunkLive(s, t, z, k, y);
    } else {
      TwoUpAt(s, t, z, y, m);
    }
  }

  lemma TwoRoot(s: State, t: State, z: int, y: int)
    requires TwoShape(s, z, y) && TwoAll(s, t, z, y)
    ensures RootOk(t)
  {
    var k, zp := s.pos[z], s.parent[z];
    assert RootOk(s);
    TwoAtZ(s, z, y);
    TwoAtY(s, z, y);
    if zp != -1 {
      var r := s.root;
      assert r != z;
      assert NodeLinked(s, r);
      assert TwoAtP(s, t, z, y, r) && TwoAtM(s, t, z, y, r);
      ShrunkLive(s, t, z, k, r);
    } else {
      assert s.root == z;
      assert TwoAtP(s, t, z, y, y) && TwoAtM(s, t, z, y, y);
      ShrunkLive(s, t, z, k, y);
    }
  }

  lemma TwoLinked(s: State, t: State, z: int, y: int)
    requires TwoShape(s, z, y) && TwoAll(s, t, z, y)
    ensures Linked(t)
  {
    var k, zp := s.pos[z], s.parent[z];
    TwoRoot(s, t, z, y);
    forall m | Live(t, m)
      ensures NodeLinked(t, m)
    {
      ShrunkLive(s, t, z, k, m);
      if m == zp {
        TwoAtParent(s, t, z, y);
      } else if m == y {
        TwoAtY'(s, t, z, y);
      } else if m == s.left[z] {
        TwoAtZl(s, t, z, y);
      } else if y != s.right[z] && (m == s.right[z] || m == s.parent[y] || m == s.right[y]) {
        TwoAtDeep(s, t, z, y, m);
      } else {
        TwoAtOther(s, t, z, y, m);
      }
    }
  }

  /** The slots written are those of live nodes, so unused slots keep
      their empty links. */
  lemma TwoFreshLinks(s: State, t: State, z: int, y: int)
    requires TwoShape(s, z, y) && TwoAll(s, t, z, y) && Fresh(s)
    ensures forall m :: t.count <= m < |t.left| ==> t.left[m] == -1 && t.right[m] == -1
  {
    var zp, yp := s.parent[z], s.parent[y];
    assert NodeLinked(s, y);
    assert s.sq[s.pos[y]] < s.count && s.sq[s.pos[yp]] < s.count;
    if zp != -1 {
      assert NodeLinked(s, z);
      assert s.sq[s.pos[zp]] < s.count;
    }
    forall m | t.count <= m < |t.left|
      ensures t.left[m] == -1 && t.right[m] == -1
    {
      assert TwoAtL(s, t, z, y, m);
    }
  }

  lemma TwoFresh(s: State, t: State, z: int, y: int)
    requires TwoShape(s, z, y) && TwoFacts(s, t, z, y) && Threaded(s) && Fresh(s)
    ensures Fresh(t)
  {
    TwoRead(s, t, z, y);
    TwoFreshLinks(s, t, z, y);
    ShrunkFreshList(s, t, z, s.pos[z]);
  }

  lemma TwoStruct(s: State, t: State, z: int, y: int)
    requires TwoShape(s, z, y) && TwoFacts(s, t, z, y) && Threaded(s) && Fresh(s)
    ensures Struct(t)
  {
    var k := s.pos[z];
    ShrunkOrdered(s, t, z, k);
    TwoRead(s, t, z, y);
    TwoLinked(s, t, z, y);
    forall m | Live(t, m)
      ensures NodeThreaded(t, m)
    {
      ShrunkThreaded(s, t, z, k, m);
    }
    TwoFresh(s, t, z, y);
  }

  // ---------------------------------------------------------------------
  // Colours and black heights

  /** The node where the black count may fall short: y's old parent, or y
      itself when y was z's right child. */
  ghost function TwoGap(s: State, z: int, y: int): int
    requires TwoShape(s, z, y)
  {
    if y != s.right[z] then s.parent[y] else y
  }

  /** A node whose children are not written stays balanced. */
  lemma TwoBalancedOther(s: State, t: State, z: int, y: int, m: int)
    requires TwoShape(s, z, y) && TwoAll(s, t, z, y) && Balanced(s)
    requires Live(s, m) && m != z && m != y && m != s.parent[z] && m != s.parent[y]
    ensures NodeBalanced(t, m)
  {
    assert NodeBalanced(s, m) && NodeLinked(s, m);
    TwoParents(s, z, y);
    assert TwoAtL(s, t, z, y, m) && TwoAtM(s, t, z, y, m);
    var l, r := s.left[m], s.right[m];
    if l != -1 {
      assert TwoAtM(s, t, z, y, l);
    }
    if r != -1 {
      assert TwoAtM(s, t, z, y, r);
    }
  }

  /** z's parent sees y with z's colour and black height. */
  lemma TwoBalancedParent(s: State, t: State, z: int, y: int)
    requires TwoShape(s, z, y) && TwoAll(s, t, z, y) && Balanced(s) && 0 <= s.parent[z] < |s.left|
    ensures NodeBalanced(t, s.parent[z])
  {
    var zp := s.parent[z];
    TwoAtZp(s, z, y);
    assert NodeBalanced(s, zp);
    assert TwoAtL(s, t, z, y, zp) && TwoAtM(s, t, z, y, zp);
    assert TwoAtM(s, t, z, y, y);
    var o := Sib(s, z, zp);
    if o != -1 {
      assert NodeLinked(s, zp);
      TwoParents(s, z, y);
      assert TwoAtM(s, t, z, y, o);
    }
  }

  /** In the deep case y has z's children and black height. */
  lemma TwoBalancedY(s: State, t: State, z: int, y: int)
    requires TwoShape(s, z, y) && TwoAll(s, t, z, y) && Balanced(s) && y != s.right[z]
    ensures NodeBalanced(t, y)
  {
    TwoParents(s, z, y);
    assert NodeBalanced(s, z);
    assert TwoAtL(s, t, z, y, y) && TwoAtM(s, t, z, y, y);
    assert TwoAtM(s, t, z, y, s.left[z]);
    assert TwoAtM(s, t, z, y, s.right[z]);
  }

  lemma TwoBalanced(s: State, t: State, z: int, y: int)
    requires TwoShape(s, z, y) && TwoAll(s, t, z, y) && Balanced(s)
    ensures BalancedBut(t, TwoGap(s, z, y))
  {
    var k := s.pos[z];
    forall m | Live(t, m) && m != TwoGap(s, z, y)
      ensures NodeBalanced(t, m)
    {
      ShrunkLive(s, t, z, k, m);
      TwoParents(s, z, y);
      if m == s.parent[z] {
        TwoBalancedParent(s, t, z, y);
      } else if m == y {
        TwoBalancedY(s, t, z, y);
      } else {
        TwoBalancedOther(s, t, z, y, m);
      }
    }
  }

  /** A node whose children are not written keeps its colour rule. */
  lemma TwoRedOther(s: State, t: State, z: int, y: int, m: int)
    requires TwoShape(s, z, y) && TwoAll(s, t, z, y) && RedOk(s, -1)
    requires Live(s, m) && m != z && m != y && m != s.parent[z] && m != s.parent[y]
    ensures NodeRedOk(t, m, s.right[y])
  {
    assert NodeRedOk(s, m, -1) && NodeLinked(s, m);
    TwoParents(s, z, y);
    assert TwoAtL(s, t, z, y, m) && TwoAtM(s, t, z, y, m);
    var l, r := s.left[m], s.right[m];
    if l != -1 {
      assert TwoAtM(s, t, z, y, l);
    }
    if r != -1 {
      assert TwoAtM(s, t, z, y, r);
    }
  }

  lemma TwoRedParent(s: State, t: State, z: int, y: int)
    requires TwoShape(s, z, y) && TwoAll(s, t, z, y) && RedOk(s, -1) && 0 <= s.parent[z] < |s.left|
    ensures NodeRedOk(t, s.parent[z], s.right[y])
  {
    var zp := s.parent[z];
    TwoAtZp(s, z, y);
    assert NodeRedOk(s, zp, -1);
    assert TwoAtL(s, t, z, y, zp) && TwoAtM(s, t, z, y, zp);
    assert TwoAtM(s, t, z, y, y);
    var o := Sib(s, z, zp);
    if o != -1 {
      assert NodeLinked(s, zp);
      TwoParents(s, z, y);
      assert TwoAtM(s, t, z, y, o);
    }
  }

  lemma TwoRedY(s: State, t: State, z: int, y: int)
    requires TwoShape(s, z, y) && TwoAll(s, t, z, y) && RedOk(s, -1)
    ensures NodeRedOk(t, y, s.right[y])
  {
    TwoParents(s, z, y);
    assert NodeRedOk(s, z, -1);
    assert TwoAtL(s, t, z, y, y) && TwoAtM(s, t, z, y, y);
    assert TwoAtM(s, t, z, y, s.left[z]);
    assert TwoAtM(s, t, z, y, s.right[z]);
  }

  lemma TwoRedYp(s: State, t: State, z: int, y: int)
    requires TwoShape(s, z, y) && TwoAll(s, t, z, y) && RedOk(s, -1) && y != s.right[z]
    ensures NodeRedOk(t, s.parent[y], s.right[y])
  {
    var yp := s.parent[y];
    TwoAtY(s, z, y);
    TwoParents(s, z, y);
    assert NodeRedOk(s, yp, -1);
    assert TwoAtL(s, t, z, y, yp) && TwoAtM(s, t, z, y, yp);
    var r := s.right[yp];
    if r != -1 {
      assert TwoAtM(s, t, z, y, r);
    }
  }

  lemma TwoRedOk(s: State, t: State, z: int, y: int)
    requires TwoShape(s, z, y) && TwoAll(s, t, z, y) && RedOk(s, -1)
    ensures RedOk(t, s.right[y])
  {
    var k := s.pos[z];
    forall m | Live(t, m)
      ensures NodeRedOk(t, m, s.right[y])
    {
      ShrunkLive(s, t, z, k, m);
      TwoParents(s, z, y);
      if m == s.parent[z] {
        TwoRedParent(s, t, z, y);
      } else if m == y {
        TwoRedY(s, t, z, y);
      } else if m == s.parent[y] {
        TwoRedYp(s, t, z, y);
      } else {
        TwoRedOther(s, t, z, y, m);
      }
    }
  }

  /** x hangs below the gap node. */
  lemma TwoHole(s: State, t: State, z: int, y: int)
    requires TwoShape(s, z, y) && TwoAll(s, t, z, y)
    ensures Hole(t, s.right[y], TwoGap(s, z, y))
  {
    var k, x, g := s.pos[z], s.right[y], TwoGap(s, z, y);
    TwoAtY(s, z, y);
    TwoParents(s, z, y);
    assert TwoAtL(s, t, z, y, g);
    ShrunkLive(s, t, z, k, g);
    if x != -1 {
      assert TwoAtP(s, t, z, y, x);
      ShrunkLive(s, t, z, k, x);
    }
  }

  /** When y was black, paths through x below the gap node miss one black
      node. */
  lemma TwoShort(s: State, t: State, z: int, y: int)
    requires TwoShape(s, z, y) && TwoAll(s, t, z, y) && Balanced(s) && !s.red[y]
    ensures Short(t, s.right[y], TwoGap(s, z, y))
  {
    var x, g := s.right[y], TwoGap(s, z, y);
    TwoAtY(s, z, y);
    TwoParents(s, z, y);
    assert NodeBalanced(s, y) && NodeBalanced(s, s.parent[y]) && NodeBalanced(s, z);
    assert TwoAtL(s, t, z, y, g) && TwoAtM(s, t, z, y, g);
    if x != -1 {
      assert TwoAtM(s, t, z, y, x);
    }
    var o := Sib(t, x, g);
    if o != -1 {
      assert TwoAtM(s, t, z, y, o);
    }
  }

  /** When y was red, x is not red and the gap node stays balanced. */
  lemma TwoRedGone(s: State, t: State, z: int, y: int)
    requires TwoShape(s, z, y) && TwoAll(s, t, z, y) && Balanced(s) && RedOk(s, -1) && s.red[y]
    ensures !IsRed(t, s.right[y]) && NodeBalanced(t, TwoGap(s, z, y))
  {
    var x, g := s.right[y], TwoGap(s, z, y);
    TwoAtY(s, z, y);
    TwoParents(s, z, y);
    assert NodeBalanced(s, y) && NodeBalanced(s, s.parent[y]) && NodeBalanced(s, z);
    assert NodeRedOk(s, y, -1);
    assert TwoAtL(s, t, z, y, g) && TwoAtM(s, t, z, y, g);
    if x != -1 {
      assert TwoAtM(s, t, z, y, x);
    }
    var o := Sib(t, x, g);
    if o != -1 {
      assert TwoAtM(s, t, z, y, o);
    }
  }

  lemma TwoRootColour(s: State, t: State, z: int, y: int)
    requires TwoShape(s, z, y) && TwoAll(s, t, z, y) && RootBlack(s) && RootOk(t)
    ensures IsRed(t, t.root) ==> t.root == s.right[y]
  {
    assert RootOk(s);
    TwoAtY(s, z, y);
    if s.parent[z] != -1 {
      assert NodeLinked(s, z);
      assert TwoAtM(s, t, z, y, s.root);
    } else {
      assert NodeLinked(s, z);
      assert TwoAtM(s, t, z, y, y);
    }
  }

  /** With two children, y takes z's place and colour; what is missing is
      y's colour, below y's old parent or below y. */
  lemma TwoRemoved(s: State, t: State, z: int, y: int)
    requires Inv(s) && TwoShape(s, z, y) && TwoFacts(s, t, z, y)
    ensures Removed(t, s.right[y], TwoGap(s, z, y), !s.red[y])
  {
    TwoStruct(s, t, z, y);
    TwoRead(s, t, z, y);
    TwoBalanced(s, t, z, y);
    TwoRedOk(s, t, z, y);
    TwoRootColour(s, t, z, y);
    TwoHole(s, t, z, y);
    if s.red[y] {
      TwoRedGone(s, t, z, y);
    } else {
      TwoShort(s, t, z, y);
    }
  }

  /** Lines 141-145, 162-172, 175-201 and 208-211 field by field: the
      writes of the removal of z with two children and successor y. */
  /** The state after lines 175-201 and 208-211, from the state u of lines
      141-172: y takes z's colour and children; in the deep case y's right
      child x takes y's place below y's parent yp, otherwise x stays below
      y. The in-order bookkeeping loses z's place. */
  ghost function TwoTarget(s: State, u: State, z: int, y: int): State
    requires TwoShape(s, z, y) && u == DetachTarget(s, z, y)
  {
    var k, zl, zr, yp, x := s.pos[z], s.left[z], s.right[z], s.parent[y], s.right[y];
    var deep := y != zr;
    var parent1 := u.parent[zl := y][y := u.parent[z]];
    var parent2 := if deep then parent1[zr := y] else parent1;
    State(if deep then u.left[y := zl][yp := x] else u.left[y := zl],
          if deep then u.right[y := zr] else u.right,
          if x > -1 then parent2[x := TwoGap(s, z, y)] else parent2,
          u.previous, u.next, u.red[y := u.red[z]], u.root, u.count,
          s.sq[..k] + s.sq[k + 1..], UnshiftAll(s.pos, k + 1),
          UnshiftAll(s.lo, k + 2)[y := s.lo[z]], UnshiftAll(s.hi, k)[y := s.hi[z] - 1], s.bh[y := s.bh[z]])
  }

  /** That state is z's removal. */
  lemma TwoTargetRemoved(s: State, u: State, z: int, y: int)
    requires Inv(s) && TwoShape(s, z, y) && u == DetachTarget(s, z, y)
    ensures Removed(TwoTarget(s, u, z, y), s.right[y], TwoGap(s, z, y), !s.red[y])
  {
    var t := TwoTarget(s, u, z, y);
    DropPlaces(s.sq, s.pos[z]);
    assert TwoFacts(s, t, z, y);
    TwoRemoved(s, t, z, y);
  }
}
