/** The recolouring loop after an insertion (RedBlackTree.cs:71-126) as
    transitions of TreeState.State. Between steps, x is the red node whose
    parent may also be red; every other red node has black children, every
    path below a node crosses the same number of black nodes, and the root
    is black unless it is x. */
module TreeFixup {
  import opened TreeState
  import opened TreeRotate

  /** The invariant of the loop at lines 75-123. */
  ghost predicate FixInv(s: State, x: int)
  {
    Struct(s) && Balanced(s) && RedOk(s, x) && Live(s, x) && s.red[x] &&
    (IsRed(s, s.root) ==> x == s.root)
  }

  /** The loop condition of line 75. */
  ghost predicate ParentRed(s: State, x: int)
    requires WF(s) && 0 <= x < |s.left|
  {
    s.parent[x] != -1 && IsRed(s, s.parent[x])
  }

  /** The number of places below m's subtree, which shrinks towards the leaves. */
  ghost function Width(s: State, m: int): int
    requires WF(s) && 0 <= m < |s.left|
  {
    s.hi[m] - s.lo[m]
  }

  /** x, its red parent p and its black grandparent g. */
  ghost predicate Family(s: State, x: int, p: int, g: int)
  {
    WF(s) && Live(s, x) && Live(s, p) && Live(s, g) &&
    s.parent[x] == p && s.parent[p] == g &&
    (s.left[p] == x || s.right[p] == x) && (s.left[g] == p || s.right[g] == p) &&
    s.red[x] && s.red[p] && !s.red[g] && x != p && p != g && x != g &&
    Width(s, x) < Width(s, p) < Width(s, g)
  }

  /** A red parent is not the root, which is black unless it is x. */
  lemma ParentBelowRoot(s: State, x: int)
    requires FixInv(s, x) && ParentRed(s, x)
    ensures var p := s.parent[x];
      Live(s, p) && NodeLinked(s, p) && (s.left[p] == x || s.right[p] == x) && s.parent[p] != -1
    ensures Width(s, x) < Width(s, s.parent[x])
  {
    var p := s.parent[x];
    LinksInRange(s, x);
    assert s.parent[s.root] == -1;
    LinksInRange(s, p);
    ChildNarrower(s, p);
  }

  /** With a red parent, x has a grandparent, and it is black (lines 77-78). */
  lemma Climb(s: State, x: int)
    requires FixInv(s, x) && ParentRed(s, x)
    ensures s.parent[s.parent[x]] != -1
    ensures Family(s, x, s.parent[x], s.parent[s.parent[x]])
  {
    ParentBelowRoot(s, x);
    var p := s.parent[x];
    var g := s.parent[p];
    assert Live(s, g) && NodeLinked(s, g) by {
      LinksInRange(s, p);
    }
    assert NodeRedOk(s, g, x);
    ChildNarrower(s, g);
  }

  /** The child of g on the other side from p. */
  ghost function Aunt(s: State, p: int, g: int): int
    requires WF(s) && 0 <= g < |s.left|
  {
    if s.left[g] == p then s.right[g] else s.left[g]
  }

  /** Only colours and black heights differ. */
  ghost predicate SameShape(s: State, t: State)
  {
    t.left == s.left && t.right == s.right && t.parent == s.parent &&
    t.previous == s.previous && t.next == s.next && t.root == s.root && t.count == s.count &&
    t.sq == s.sq && t.pos == s.pos && t.lo == s.lo && t.hi == s.hi &&
    |t.red| == |s.red| && |t.bh| == |s.bh|
  }

  lemma ShapeKept(s: State, t: State)
    requires Struct(s) && SameShape(s, t)
    ensures Struct(t)
  {
    forall m | Live(t, m)
      ensures NodeLinked(t, m) && NodeThreaded(t, m)
    {
      assert NodeLinked(s, m) && NodeThreaded(s, m);
    }
  }

  // ---------------------------------------------------------------------
  // The red aunt (lines 81-87 and 104-110)

  /** p and the aunt a turn black, g turns red and its paths gain a black
      node. */
  ghost function Recolour(s: State, p: int, a: int, g: int): (t: State)
    requires WF(s) && 0 <= p < |s.left| && 0 <= a < |s.left| && 0 <= g < |s.left|
    ensures SameShape(s, t)
  {
    s.(red := s.red[p := false][a := false][g := true], bh := s.bh[g := s.bh[g] + 1])
  }

  /** What the red-aunt case relies on. */
  ghost predicate RedAunt(s: State, x: int, p: int, g: int, a: int)
  {
    FixInv(s, x) && Family(s, x, p, g) && 0 <= a < |s.left| && a == Aunt(s, p, g) &&
    Live(s, a) && s.parent[a] == g && s.red[a] && a != p && a != g && a != x
  }

  lemma RedAuntFacts(s: State, x: int, p: int, g: int, a: int)
    requires FixInv(s, x) && ParentRed(s, x) && p == s.parent[x] && g == s.parent[p]
    requires 0 <= g < |s.left| && a == Aunt(s, p, g) && IsRed(s, a)
    ensures RedAunt(s, x, p, g, a)
  {
    Climb(s, x);
    LinksInRange(s, g);
    LinksInRange(s, p);
  }

  lemma RecolourBalancedAt(s: State, x: int, p: int, g: int, a: int, m: int)
    requires RedAunt(s, x, p, g, a) && Live(s, m)
    ensures NodeBalanced(Recolour(s, p, a, g), m)
  {
    if m == g {
      RecolourBalancedAtG(s, x, p, g, a);
    } else {
      assert NodeBalanced(s, m);
      LinksInRange(s, m);
    }
  }

  lemma RecolourBalancedAtG(s: State, x: int, p: int, g: int, a: int)
    requires RedAunt(s, x, p, g, a)
    ensures NodeBalanced(Recolour(s, p, a, g), g)
  {
    assert NodeBalanced(s, g) && NodeBalanced(s, p) && NodeBalanced(s, a);
  }

  lemma RecolourRedAt(s: State, x: int, p: int, g: int, a: int, m: int)
    requires RedAunt(s, x, p, g, a) && Live(s, m)
    ensures NodeRedOk(Recolour(s, p, a, g), m, g)
  {
    assert NodeRedOk(s, m, x);
    LinksInRange(s, m);
  }

  /** Recolouring moves the violation two levels up: g is the new x. */
  lemma RecolourUp(s: State, x: int, p: int, g: int, a: int)
    requires FixInv(s, x) && ParentRed(s, x) && p == s.parent[x] && g == s.parent[p]
    requires 0 <= g < |s.left| && a == Aunt(s, p, g) && IsRed(s, a)
    ensures 0 <= p < |s.left| && 0 <= a < |s.left|
    ensures var t := Recolour(s, p, a, g);
      FixInv(t, g) && Width(t, x) < Width(t, g)
  {
    RedAuntFacts(s, x, p, g, a);
    var t := Recolour(s, p, a, g);
    ShapeKept(s, t);
    forall m | Live(t, m)
      ensures NodeBalanced(t, m) && NodeRedOk(t, m, g)
    {
      RecolourBalancedAt(s, x, p, g, a, m);
      RecolourRedAt(s, x, p, g, a, m);
    }
    assert s.parent[s.root] == -1;
  }

  // ---------------------------------------------------------------------
  // A black aunt, x on the inner side: rotate at the parent (lines 90-95
  // and 113-118)

  /** The inner case on the left: p is g's left child and x p's right child. */
  ghost predicate InnerL(s: State, x: int, p: int, g: int)
  {
    FixInv(s, x) && Family(s, x, p, g) && s.left[g] == p && s.right[p] == x && !IsRed(s, s.right[g])
  }

  lemma InnerLBalancedAt(s: State, t: State, x: int, p: int, g: int, m: int)
    requires InnerL(s, x, p, g) && CanRotL(s, p) && WF(t) && |t.left| == |s.left|
    requires SameList(s, t) && KidsAfterL(s, t, p) && Live(s, m)
    ensures NodeBalanced(t, m)
  {
    assert NodeBalanced(s, m) && NodeBalanced(s, p) && NodeBalanced(s, x);
  }

  lemma InnerLRedAt(s: State, t: State, x: int, p: int, g: int, m: int)
    requires InnerL(s, x, p, g) && CanRotL(s, p) && WF(t) && |t.left| == |s.left|
    requires SameList(s, t) && KidsAfterL(s, t, p) && Live(s, m)
    ensures NodeRedOk(t, m, p)
  {
    LinksInRange(s, m);
    assert NodeRedOk(s, m, x);
    if m == p {
      LinksInRange(s, x);
      assert NodeRedOk(s, x, x);
    }
  }

  /** Rotating left at p makes p the red child of the red x: the violation
      is now at p, on the outer side. */
  lemma RotateParentL(s: State, x: int, p: int, g: int)
    requires FixInv(s, x) && ParentRed(s, x) && p == s.parent[x] && g == s.parent[p]
    requires 0 <= g < |s.left| && s.left[g] == p && !IsRed(s, s.right[g]) && s.right[p] == x
    ensures CanRotL(s, p)
    ensures var t := RotL(s, p);
      FixInv(t, p) && ParentRed(t, p) && t.parent[p] == x && t.parent[x] == g &&
      t.left[g] == x && t.left[x] == p && t.right[g] == s.right[g] && t.red == s.red
  {
    Climb(s, x);
    RotLStruct(s, p);
    RotLKids(s, p);
    var t := RotL(s, p);
    forall m | Live(t, m)
      ensures NodeBalanced(t, m) && NodeRedOk(t, m, p)
    {
      InnerLBalancedAt(s, t, x, p, g, m);
      InnerLRedAt(s, t, x, p, g, m);
    }
    assert s.parent[s.root] == -1;
  }

  /** The inner case on the right: p is g's right child and x p's left child. */
  ghost predicate InnerR(s: State, x: int, p: int, g: int)
  {
    FixInv(s, x) && Family(s, x, p, g) && s.right[g] == p && s.left[p] == x && !IsRed(s, s.left[g])
  }

  lemma InnerRBalancedAt(s: State, t: State, x: int, p: int, g: int, m: int)
    requires InnerR(s, x, p, g) && CanRotR(s, p) && WF(t) && |t.left| == |s.left|
    requires SameList(s, t) && KidsAfterR(s, t, p) && Live(s, m)
    ensures NodeBalanced(t, m)
  {
    assert NodeBalanced(s, m) && NodeBalanced(s, p) && NodeBalanced(s, x);
  }

  lemma InnerRRedAt(s: State, t: State, x: int, p: int, g: int, m: int)
    requires InnerR(s, x, p, g) && CanRotR(s, p) && WF(t) && |t.left| == |s.left|
    requires SameList(s, t) && KidsAfterR(s, t, p) && Live(s, m)
    ensures NodeRedOk(t, m, p)
  {
    LinksInRange(s, m);
    assert NodeRedOk(s, m, x);
    if m == p {
      LinksInRange(s, x);
      assert NodeRedOk(s, x, x);
    }
  }

  lemma RotateParentR(s: State, x: int, p: int, g: int)
    requires FixInv(s, x) && ParentRed(s, x) && p == s.parent[x] && g == s.parent[p]
    requires 0 <= g < |s.left| && s.right[g] == p && !IsRed(s, s.left[g]) && s.left[p] == x
    ensures CanRotR(s, p)
    ensures var t := RotR(s, p);
      FixInv(t, p) && ParentRed(t, p) && t.parent[p] == x && t.parent[x] == g &&
      t.right[g] == x && t.right[x] == p && t.left[g] == s.left[g] && t.red == s.red
  {
    Climb(s, x);
    RotRStruct(s, p);
    RotRKids(s, p);
    var t := RotR(s, p);
    forall m | Live(t, m)
      ensures NodeBalanced(t, m) && NodeRedOk(t, m, p)
    {
      InnerRBalancedAt(s, t, x, p, g, m);
      InnerRRedAt(s, t, x, p, g, m);
    }
    assert s.parent[s.root] == -1;
  }

  // ---------------------------------------------------------------------
  // A black aunt, x on the outer side: recolour and rotate at the
  // grandparent (lines 96-98 and 120-122)

  /** p turns black and g red (lines 96-97 and 120-121). */
  ghost function Paint(s: State, p: int, g: int): (u: State)
    requires WF(s) && 0 <= p < |s.left| && 0 <= g < |s.left|
    ensures SameShape(s, u) && u.bh == s.bh
  {
    s.(red := s.red[p := false][g := true])
  }

  /** The outer case on the left: p is g's left child and x p's left child;
      the subtrees involved are strictly nested. */
  ghost predicate OuterL(s: State, x: int, p: int, g: int)
  {
    FixInv(s, x) && Family(s, x, p, g) && s.left[g] == p && s.left[p] == x && !IsRed(s, s.right[g]) &&
    NodeLinked(s, x) && NodeLinked(s, p) && NodeLinked(s, g) &&
    (s.right[p] != -1 ==> Width(s, s.right[p]) < Width(s, p)) &&
    (s.right[g] != -1 ==> Width(s, s.right[g]) < Width(s, g)) &&
    (s.parent[g] != -1 ==> Live(s, s.parent[g]) && NodeLinked(s, s.parent[g]) && Width(s, g) < Width(s, s.parent[g]))
  }

  lemma OuterLFacts(s: State, x: int, p: int, g: int)
    requires FixInv(s, x) && ParentRed(s, x) && p == s.parent[x] && g == s.parent[p]
    requires 0 <= g < |s.left| && s.left[g] == p && !IsRed(s, s.right[g]) && s.left[p] == x
    ensures OuterL(s, x, p, g)
  {
    Climb(s, x);
    ChildNarrower(s, p);
    ChildNarrower(s, g);
    LinksInRange(s, x);
    LinksInRange(s, g);
    if s.parent[g] != -1 {
      ChildNarrower(s, s.parent[g]);
    }
  }

  /** The links and colours around the rotation at g after Paint, stated
      against the state before Paint. */
  ghost predicate OuterLStep(s: State, t: State, p: int, g: int)
  {
    WF(s) && 0 <= p < |s.left| && 0 <= g < |s.left| && CanRotR(s, g) &&
    WF(t) && |t.left| == |s.left| && t.sq == s.sq && t.pos == s.pos && t.bh == s.bh &&
    t.red == s.red[p := false][g := true] && KidsAfterR(s, t, g)
  }

  lemma OuterLBalancedAtG(s: State, t: State, x: int, p: int, g: int)
    requires OuterL(s, x, p, g) && OuterLStep(s, t, p, g)
    ensures NodeBalanced(t, g)
  {
    assert NodeBalanced(s, p) && NodeBalanced(s, g);
  }

  lemma OuterLBalancedAtP(s: State, t: State, x: int, p: int, g: int)
    requires OuterL(s, x, p, g) && OuterLStep(s, t, p, g)
    ensures NodeBalanced(t, p)
  {
    assert NodeBalanced(s, x) && NodeBalanced(s, p) && NodeBalanced(s, g);
  }

  lemma OuterLBalancedAtTop(s: State, t: State, x: int, p: int, g: int)
    requires OuterL(s, x, p, g) && OuterLStep(s, t, p, g) && s.parent[g] != -1
    ensures NodeBalanced(t, s.parent[g])
  {
    var gg := s.parent[g];
    assert NodeBalanced(s, gg) && NodeBalanced(s, g);
  }

  lemma OuterLBalancedElse(s: State, t: State, x: int, p: int, g: int, m: int)
    requires OuterL(s, x, p, g) && OuterLStep(s, t, p, g) && Live(s, m)
    requires m != p && m != g && m != s.parent[g]
    ensures NodeBalanced(t, m)
  {
    LinksInRange(s, m);
    assert NodeBalanced(s, m);
  }

  lemma OuterLBalancedAt(s: State, t: State, x: int, p: int, g: int, m: int)
    requires OuterL(s, x, p, g) && OuterLStep(s, t, p, g) && Live(s, m)
    ensures NodeBalanced(t, m)
  {
    if m == g {
      OuterLBalancedAtG(s, t, x, p, g);
    } else if m == p {
      OuterLBalancedAtP(s, t, x, p, g);
    } else if m == s.parent[g] {
      OuterLBalancedAtTop(s, t, x, p, g);
    } else {
      OuterLBalancedElse(s, t, x, p, g, m);
    }
  }

  lemma OuterLRedAtG(s: State, t: State, x: int, p: int, g: int)
    requires OuterL(s, x, p, g) && OuterLStep(s, t, p, g)
    ensures NodeRedOk(t, g, -1)
  {
    assert NodeRedOk(s, p, x);
  }

  lemma OuterLRedAtX(s: State, t: State, x: int, p: int, g: int)
    requires OuterL(s, x, p, g) && OuterLStep(s, t, p, g)
    ensures NodeRedOk(t, x, -1)
  {
    assert NodeRedOk(s, x, x);
    ChildNarrower(s, x);
    LinksInRange(s, x);
  }

  lemma OuterLRedAtTop(s: State, t: State, x: int, p: int, g: int)
    requires OuterL(s, x, p, g) && OuterLStep(s, t, p, g) && s.parent[g] != -1
    ensures NodeRedOk(t, s.parent[g], -1)
  {
    var gg := s.parent[g];
    assert NodeRedOk(s, gg, x);
  }

  lemma OuterLRedElse(s: State, t: State, x: int, p: int, g: int, m: int)
    requires OuterL(s, x, p, g) && OuterLStep(s, t, p, g) && Live(s, m)
    requires m != p && m != g && m != x && m != s.parent[g]
    ensures NodeRedOk(t, m, -1)
  {
    LinksInRange(s, m);
    assert NodeRedOk(s, m, x);
  }

  lemma OuterLRedAt(s: State, t: State, x: int, p: int, g: int, m: int)
    requires OuterL(s, x, p, g) && OuterLStep(s, t, p, g) && Live(s, m)
    ensures NodeRedOk(t, m, -1)
  {
    if m == g {
      OuterLRedAtG(s, t, x, p, g);
    } else if m == x {
      OuterLRedAtX(s, t, x, p, g);
    } else if m == p {
    } else if m == s.parent[g] {
      OuterLRedAtTop(s, t, x, p, g);
    } else {
      OuterLRedElse(s, t, x, p, g, m);
    }
  }

  /** The colour rules after the rotation at g. */
  lemma OuterLColours(s: State, t: State, x: int, p: int, g: int)
    requires OuterL(s, x, p, g) && OuterLStep(s, t, p, g)
    ensures Balanced(t) && RedOk(t, -1) && RedOk(t, x)
  {
    forall m | Live(t, m)
      ensures NodeBalanced(t, m) && NodeRedOk(t, m, -1) && NodeRedOk(t, m, x)
    {
      OuterLBalancedAt(s, t, x, p, g, m);
      OuterLRedAt(s, t, x, p, g, m);
    }
  }

  /** The root after the rotation at g is black. */
  lemma OuterLRoot(s: State, t: State, x: int, p: int, g: int)
    requires OuterL(s, x, p, g) && OuterLStep(s, t, p, g)
    ensures RootBlack(t)
  {
    assert s.parent[s.root] == -1;
  }

  /** Paint and the rotation at g keep the shape and give the step facts. */
  lemma OuterLSetup(s: State, x: int, p: int, g: int)
    requires OuterL(s, x, p, g)
    ensures CanRotR(Paint(s, p, g), g)
    ensures var t := RotR(Paint(s, p, g), g);
      Struct(t) && OuterLStep(s, t, p, g) && t.left[p] == x
  {
    var u := Paint(s, p, g);
    ShapeKept(s, u);
    RotRStruct(u, g);
    RotRKids(u, g);
  }

  /** After recolouring and rotating right at g, p is a black node with
      the red children x and g: no red-red edge is left, and the loop
      ends since x's parent is black. */
  lemma RotateGrandL(s: State, x: int, p: int, g: int)
    requires FixInv(s, x) && ParentRed(s, x) && p == s.parent[x] && g == s.parent[p]
    requires 0 <= g < |s.left| && s.left[g] == p && !IsRed(s, s.right[g]) && s.left[p] == x
    ensures 0 <= p < |s.left| && CanRotR(Paint(s, p, g), g)
    ensures var t := RotR(Paint(s, p, g), g);
      FixInv(t, x) && !ParentRed(t, x) && RedOk(t, -1) && RootBlack(t) && t.parent[x] == p
  {
    OuterLFacts(s, x, p, g);
    OuterLSetup(s, x, p, g);
    var t := RotR(Paint(s, p, g), g);
    OuterLColours(s, t, x, p, g);
    OuterLRoot(s, t, x, p, g);
    assert NodeLinked(t, p);
  }

  /** The outer case on the right: p is g's right child and x p's right
      child. */
  ghost predicate OuterR(s: State, x: int, p: int, g: int)
  {
    FixInv(s, x) && Family(s, x, p, g) && s.right[g] == p && s.right[p] == x && !IsRed(s, s.left[g]) &&
    NodeLinked(s, x) && NodeLinked(s, p) && NodeLinked(s, g) &&
    (s.left[p] != -1 ==> Width(s, s.left[p]) < Width(s, p)) &&
    (s.left[g] != -1 ==> Width(s, s.left[g]) < Width(s, g)) &&
    (s.parent[g] != -1 ==> Live(s, s.parent[g]) && NodeLinked(s, s.parent[g]) && Width(s, g) < Width(s, s.parent[g]))
  }

  lemma OuterRFacts(s: State, x: int, p: int, g: int)
    requires FixInv(s, x) && ParentRed(s, x) && p == s.parent[x] && g == s.parent[p]
    requires 0 <= g < |s.left| && s.right[g] == p && !IsRed(s, s.left[g]) && s.right[p] == x
    ensures OuterR(s, x, p, g)
  {
    Climb(s, x);
    ChildNarrower(s, p);
    ChildNarrower(s, g);
    LinksInRange(s, x);
    LinksInRange(s, g);
    if s.parent[g] != -1 {
      ChildNarrower(s, s.parent[g]);
    }
  }

  /** The links and colours around the rotation at g after Paint, stated
      against the state before Paint. */
  ghost predicate OuterRStep(s: State, t: State, p: int, g: int)
  {
    WF(s) && 0 <= p < |s.left| && 0 <= g < |s.left| && CanRotL(s, g) &&
    WF(t) && |t.left| == |s.left| && t.sq == s.sq && t.pos == s.pos && t.bh == s.bh &&
    t.red == s.red[p := false][g := true] && KidsAfterL(s, t, g)
  }

  lemma OuterRBalancedAtG(s: State, t: State, x: int, p: int, g: int)
    requires OuterR(s, x, p, g) && OuterRStep(s, t, p, g)
    ensures NodeBalanced(t, g)
  {
    assert NodeBalanced(s, p) && NodeBalanced(s, g);
  }

  lemma OuterRBalancedAtP(s: State, t: State, x: int, p: int, g: int)
    requires OuterR(s, x, p, g) && OuterRStep(s, t, p, g)
    ensures NodeBalanced(t, p)
  {
    assert NodeBalanced(s, x) && NodeBalanced(s, p) && NodeBalanced(s, g);
  }

  lemma OuterRBalancedAtTop(s: State, t: State, x: int, p: int, g: int)
    requires OuterR(s, x, p, g) && OuterRStep(s, t, p, g) && s.parent[g] != -1
    ensures NodeBalanced(t, s.parent[g])
  {
    var gg := s.parent[g];
    assert NodeBalanced(s, gg) && NodeBalanced(s, g);
  }

  lemma OuterRBalancedElse(s: State, t: State, x: int, p: int, g: int, m: int)
    requires OuterR(s, x, p, g) && OuterRStep(s, t, p, g) && Live(s, m)
    requires m != p && m != g && m != s.parent[g]
    ensures NodeBalanced(t, m)
  {
    LinksInRange(s, m);
    assert NodeBalanced(s, m);
  }

  lemma OuterRBalancedAt(s: State, t: State, x: int, p: int, g: int, m: int)
    requires OuterR(s, x, p, g) && OuterRStep(s, t, p, g) && Live(s, m)
    ensures NodeBalanced(t, m)
  {
    if m == g {
      OuterRBalancedAtG(s, t, x, p, g);
    } else if m == p {
      OuterRBalancedAtP(s, t, x, p, g);
    } else if m == s.parent[g] {
      OuterRBalancedAtTop(s, t, x, p, g);
    } else {
      OuterRBalancedElse(s, t, x, p, g, m);
    }
  }

  lemma OuterRRedAtG(s: State, t: State, x: int, p: int, g: int)
    requires OuterR(s, x, p, g) && OuterRStep(s, t, p, g)
    ensures NodeRedOk(t, g, -1)
  {
    assert NodeRedOk(s, p, x);
  }

  lemma OuterRRedAtX(s: State, t: State, x: int, p: int, g: int)
    requires OuterR(s, x, p, g) && OuterRStep(s, t, p, g)
    ensures NodeRedOk(t, x, -1)
  {
    assert NodeRedOk(s, x, x);
    ChildNarrower(s, x);
    LinksInRange(s, x);
  }

  lemma OuterRRedAtTop(s: State, t: State, x: int, p: int, g: int)
    requires OuterR(s, x, p, g) && OuterRStep(s, t, p, g) && s.parent[g] != -1
    ensures NodeRedOk(t, s.parent[g], -1)
  {
    var gg := s.parent[g];
    assert NodeRedOk(s, gg, x);
  }

  lemma OuterRRedElse(s: State, t: State, x: int, p: int, g: int, m: int)
    requires OuterR(s, x, p, g) && OuterRStep(s, t, p, g) && Live(s, m)
    requires m != p && m != g && m != x && m != s.parent[g]
    ensures NodeRedOk(t, m, -1)
  {
    LinksInRange(s, m);
    assert NodeRedOk(s, m, x);
  }

  lemma OuterRRedAt(s: State, t: State, x: int, p: int, g: int, m: int)
    requires OuterR(s, x, p, g) && OuterRStep(s, t, p, g) && Live(s, m)
    ensures NodeRedOk(t, m, -1)
  {
    if m == g {
      OuterRRedAtG(s, t, x, p, g);
    } else if m == x {
      OuterRRedAtX(s, t, x, p, g);
    } else if m == p {
    } else if m == s.parent[g] {
      OuterRRedAtTop(s, t, x, p, g);
    } else {
      OuterRRedElse(s, t, x, p, g, m);
    }
  }

  /** The colour rules after the rotation at g. */
  lemma OuterRColours(s: State, t: State, x: int, p: int, g: int)
    requires OuterR(s, x, p, g) && OuterRStep(s, t, p, g)
    ensures Balanced(t) && RedOk(t, -1) && RedOk(t, x)
  {
    forall m | Live(t, m)
      ensures NodeBalanced(t, m) && NodeRedOk(t, m, -1) && NodeRedOk(t, m, x)
    {
      OuterRBalancedAt(s, t, x, p, g, m);
      OuterRRedAt(s, t, x, p, g, m);
    }
  }

  /** The root after the rotation at g is black. */
  lemma OuterRRoot(s: State, t: State, x: int, p: int, g: int)
    requires OuterR(s, x, p, g) && OuterRStep(s, t, p, g)
    ensures RootBlack(t)
  {
    assert s.parent[s.root] == -1;
  }

  /** Paint and the rotation at g keep the shape and give the step facts. */
  lemma OuterRSetup(s: State, x: int, p: int, g: int)
    requires OuterR(s, x, p, g)
    ensures CanRotL(Paint(s, p, g), g)
    ensures var t := RotL(Paint(s, p, g), g);
      Struct(t) && OuterRStep(s, t, p, g) && t.right[p] == x
  {
    var u := Paint(s, p, g);
    ShapeKept(s, u);
    RotLStruct(u, g);
    RotLKids(u, g);
  }

  lemma RotateGrandR(s: State, x: int, p: int, g: int)
    requires FixInv(s, x) && ParentRed(s, x) && p == s.parent[x] && g == s.parent[p]
    requires 0 <= g < |s.left| && s.right[g] == p && !IsRed(s, s.left[g]) && s.right[p] == x
    ensures 0 <= p < |s.left| && CanRotL(Paint(s, p, g), g)
    ensures var t := RotL(Paint(s, p, g), g);
      FixInv(t, x) && !ParentRed(t, x) && RedOk(t, -1) && RootBlack(t) && t.parent[x] == p
  {
    OuterRFacts(s, x, p, g);
    OuterRSetup(s, x, p, g);
    var t := RotL(Paint(s, p, g), g);
    OuterRColours(s, t, x, p, g);
    OuterRRoot(s, t, x, p, g);
    assert NodeLinked(t, p);
  }

  // ---------------------------------------------------------------------
  // The end of the loop (line 125)

  /** Once x's parent is black (or x is the root), no red node has a red
      child. */
  lemma FixDone(s: State, x: int)
    requires FixInv(s, x) && !ParentRed(s, x)
    ensures RedOk(s, -1)
  {
    forall m | Live(s, m)
      ensures NodeRedOk(s, m, -1)
    {
      assert NodeRedOk(s, m, x);
      LinksInRange(s, m);
    }
  }

  /** Line 125: the root is painted black. */
  ghost function Blacken(s: State): (t: State)
    requires WF(s) && 0 <= s.root < |s.left|
    ensures SameShape(s, t) && t.bh == s.bh
  {
    s.(red := s.red[s.root := false])
  }

  /** When the loop ends the tree is a red-black tree again. */
  lemma BlackenRoot(s: State, x: int)
    requires FixInv(s, x) && !ParentRed(s, x)
    ensures 0 <= s.root < |s.left| && Inv(Blacken(s))
  {
    FixDone(s, x);
    assert s.root != -1;
    var t := Blacken(s);
    ShapeKept(s, t);
    forall m | Live(t, m)
      ensures NodeBalanced(t, m) && NodeRedOk(t, m, -1)
    {
      assert NodeBalanced(s, m) && NodeRedOk(s, m, -1);
      LinksInRange(s, m);
    }
    assert s.parent[s.root] == -1;
  }
}
