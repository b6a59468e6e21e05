/** The recolouring loop after a removal (RedBlackTree.cs:213-295) as
    transitions of TreeState.State. Between steps, x (possibly -1) hangs
    below p and the paths through it miss one black node; every other node
    is balanced, no red node other than x has a red child, and the root is
    black unless it is x. */
module TreeErase {
  import opened TreeState
  import opened TreeRotate
  import opened TreeFixup
  import opened TreeSplice

  /** No red node other than x has a red child. */
  ghost predicate RedOkBut(s: State, x: int)
    requires WF(s)
  {
    forall m {:trigger NodeRedOk(s, m, x)} :: Live(s, m) && m != x ==> NodeRedOk(s, m, x)
  }

  /** The invariant of the loop at lines 230-292. */
  ghost predicate DelInv(s: State, x: int, p: int)
  {
    Struct(s) && Hole(s, x, p) && BalancedBut(s, p) && Short(s, x, p) && RedOkBut(s, x) &&
    (IsRed(s, s.root) ==> s.root == x)
  }

  /** The places x's subtree covers, none for -1; it grows as x climbs. */
  ghost function Span(s: State, x: int): int
    requires WF(s)
  {
    if 0 <= x < |s.left| then s.hi[x] - s.lo[x] + 1 else 0
  }

  lemma SpanFits(s: State, x: int)
    requires Struct(s) && (x == -1 || Live(s, x))
    ensures 0 <= Span(s, x) <= |s.sq|
  {
    if x != -1 {
      assert NodeLinked(s, x);
    }
  }

  /** x, when it is a node, turns black (lines 218-222 and 294-295). */
  ghost function Darken(s: State, x: int): (t: State)
    requires WF(s)
    ensures SameShape(s, t) && t.bh == s.bh
    ensures 0 <= x < |s.red| ==> !t.red[x]
    ensures forall m :: 0 <= m < |s.red| && m != x ==> t.red[m] == s.red[m]
  {
    if 0 <= x < |s.red| then s.(red := s.red[x := false]) else s
  }

  /** t differs from s at most in the colours and black heights of a, b
      and c. */
  ghost predicate Recoloured(s: State, t: State, a: int, b: int, c: int)
  {
    WF(s) && WF(t) && |t.left| == |s.left| &&
    forall n :: 0 <= n < |s.left| && n != a && n != b && n != c ==> t.red[n] == s.red[n] && t.bh[n] == s.bh[n]
  }

  /** A node whose children keep their links, colours and black heights
      keeps its balance, and its colour rule when no child of it is x. */
  lemma KeptAt(s: State, t: State, a: int, b: int, c: int, m: int, x: int, y: int)
    requires Recoloured(s, t, a, b, c) && 0 <= m < |s.left| && m != a && m != b && m != c
    requires t.left[m] == s.left[m] && t.right[m] == s.right[m]
    requires s.left[m] != a && s.left[m] != b && s.left[m] != c
    requires s.right[m] != a && s.right[m] != b && s.right[m] != c
    requires (s.left[m] != x || x == -1) && (s.right[m] != x || x == -1)
    ensures NodeBalanced(s, m) ==> NodeBalanced(t, m)
    ensures NodeRedOk(s, m, x) ==> NodeRedOk(t, m, y)
  {
  }

  /** A node one of whose children c is replaced by d, counting as many
      black nodes, keeps its balance. */
  lemma ReplacedAt(s: State, t: State, a: int, b: int, c: int, m: int, c0: int, c1: int)
    requires Recoloured(s, t, a, b, c) && 0 <= m < |s.left| && m != a && m != b && m != c
    requires s.left[m] == c0 ==> t.left[m] == c1 && t.right[m] == s.right[m]
    requires s.left[m] != c0 ==> s.right[m] == c0 && t.right[m] == c1 && t.left[m] == s.left[m]
    requires var o := if s.left[m] == c0 then s.right[m] else s.left[m]; o != a && o != b && o != c
    requires Contrib(t, c1) == Contrib(s, c0)
    ensures NodeBalanced(s, m) ==> NodeBalanced(t, m)
  {
  }

  // ---------------------------------------------------------------------
  // Entering and leaving the loop

  /** Lines 213-216: when the removed colour was red, nothing is left to
      repair. */
  lemma RemovedRed(s: State, x: int, p: int)
    requires Removed(s, x, p, false)
    ensures Inv(s)
  {
    forall m | Live(s, m)
      ensures NodeBalanced(s, m) && NodeRedOk(s, m, -1)
    {
      assert NodeRedOk(s, m, x);
      if m != p {
        assert NodeBalanced(s, m);
      }
    }
  }

  /** A removed black node leaves the loop's invariant. */
  lemma RemovedBlack(s: State, x: int, p: int)
    requires Removed(s, x, p, true)
    ensures DelInv(s, x, p)
  {
    forall m | Live(s, m) && m != x
      ensures NodeRedOk(s, m, x)
    {
      assert NodeRedOk(s, m, x);
    }
  }

  /** A red-black tree is the invariant with its root as x. */
  lemma InvDone(s: State)
    requires Inv(s)
    ensures DelInv(s, s.root, -1)
  {
    forall m | Live(s, m) && m != s.root
      ensures NodeRedOk(s, m, s.root)
    {
      assert NodeRedOk(s, m, -1);
    }
  }

  /** The root hangs below nothing. */
  lemma AtRoot(s: State, x: int, p: int)
    requires DelInv(s, x, p) && x == s.root
    ensures p == -1
  {
    if x != -1 {
      assert s.parent[s.root] == -1;
    }
  }

  lemma DarkenBalancedAt(s: State, x: int, p: int, m: int)
    requires DelInv(s, x, p) && (x == s.root || IsRed(s, x)) && Live(s, m)
    ensures NodeBalanced(Darken(s, x), m)
  {
    if x == s.root {
      AtRoot(s, x, p);
    }
    LinksInRange(s, m);
    if m == p {
      ChildNarrower(s, p);
      assert NodeBalanced(s, x);
    } else {
      assert NodeBalanced(s, m);
    }
  }

  lemma DarkenRedAt(s: State, x: int, p: int, m: int)
    requires DelInv(s, x, p) && Live(s, m)
    ensures NodeRedOk(Darken(s, x), m, -1)
  {
    if m != x {
      assert NodeRedOk(s, m, x);
    }
  }

  /** Lines 218-222 and 294-295: once x is red or the root, turning it
      black repairs the tree. */
  lemma Darkened(s: State, x: int, p: int)
    requires DelInv(s, x, p) && (x == s.root || IsRed(s, x))
    ensures Inv(Darken(s, x))
  {
    var t := Darken(s, x);
    ShapeKept(s, t);
    forall m | Live(t, m)
      ensures NodeBalanced(t, m) && NodeRedOk(t, m, -1)
    {
      DarkenBalancedAt(s, x, p, m);
      DarkenRedAt(s, x, p, m);
    }
  }

  /** Below the root, p is a node and x one of its children. */
  lemma ParentFacts(s: State, x: int, p: int)
    requires DelInv(s, x, p) && x != s.root
    ensures 0 <= p < |s.left| && Live(s, p) && NodeLinked(s, p) && x != p
    ensures x != -1 ==> Live(s, x) && NodeLinked(s, x) && s.parent[x] == p && s.bh[x] >= 0
    ensures s.left[p] == x || s.right[p] == x
    ensures Span(s, x) < Span(s, p)
    ensures s.parent[p] != -1 ==>
      Live(s, s.parent[p]) && NodeLinked(s, s.parent[p]) && Span(s, p) < Span(s, s.parent[p])
  {
    LinksInRange(s, p);
    ChildNarrower(s, p);
    if x != -1 {
      LinksInRange(s, x);
      assert NodeBalanced(s, x);
    }
    if s.parent[p] != -1 {
      ChildNarrower(s, s.parent[p]);
    }
  }

  /** Below the root, x has the sibling w = Sib(s, x, p). The paths
      through w count bh[p] >= 1 black nodes, so w is a node: the sibling
      read at lines 236 and 264 is never -1. */
  lemma SibFacts(s: State, x: int, p: int)
    requires DelInv(s, x, p) && x != s.root
    ensures 0 <= p < |s.left| && Live(s, p) && NodeLinked(s, p) && x != p
    ensures x != -1 ==> Live(s, x) && NodeLinked(s, x) && s.parent[x] == p
    ensures s.left[p] == x || s.right[p] == x
    ensures var w := Sib(s, x, p);
      Live(s, w) && NodeLinked(s, w) && s.parent[w] == p && w != x && w != p &&
      s.bh[p] >= 1 && Contrib(s, w) == s.bh[p] && Contrib(s, x) + 1 == s.bh[p] &&
      Span(s, w) < Span(s, p)
    ensures Span(s, x) < Span(s, p)
    ensures s.parent[p] != -1 ==>
      Live(s, s.parent[p]) && NodeLinked(s, s.parent[p]) && Span(s, p) < Span(s, s.parent[p])
  {
    ParentFacts(s, x, p);
    LinksInRange(s, p);
    ChildNarrower(s, p);
  }

  /** The indices a round of the loop reads: p, the sibling w and w's
      children. */
  lemma SibRefs(s: State, x: int, p: int)
    requires DelInv(s, x, p) && x != s.root
    ensures 0 <= p < |s.left| && (s.left[p] == x || s.right[p] == x)
    ensures var w := Sib(s, x, p); 0 <= w < |s.left| && Ref(s, s.left[w]) && Ref(s, s.right[w])
  {
    SibFacts(s, x, p);
    LinksInRange(s, Sib(s, x, p));
  }

  // ---------------------------------------------------------------------
  // A black sibling with black children (lines 289-291, either side)

  /** The sibling w turns red, and the paths through p, which now all miss
      a black node, count one black node less. */
  ghost function Lighten(s: State, w: int, p: int): (t: State)
    requires WF(s) && 0 <= w < |s.left| && 0 <= p < |s.left|
    ensures SameShape(s, t)
  {
    s.(red := s.red[w := true], bh := s.bh[p := s.bh[p] - 1])
  }

  ghost predicate BlackSib(s: State, x: int, p: int)
  {
    DelInv(s, x, p) && !IsRed(s, x) && 0 <= p < |s.left| && Live(s, p) && NodeLinked(s, p) && x != p &&
    (x != -1 ==> Live(s, x) && s.parent[x] == p) && (s.left[p] == x || s.right[p] == x) &&
    var w, pp := Sib(s, x, p), s.parent[p];
    Live(s, w) && NodeLinked(s, w) && s.parent[w] == p && !s.red[w] && w != x && w != p &&
    !IsRed(s, s.left[w]) && !IsRed(s, s.right[w]) &&
    s.left[w] != p && s.right[w] != p && s.left[w] != w && s.right[w] != w && s.bh[p] >= 1 &&
    (pp != -1 ==> Live(s, pp) && NodeLinked(s, pp) && pp != w && pp != x && pp != p) &&
    !IsRed(s, s.root) && Span(s, x) < Span(s, p)
  }

  lemma BlackSibFacts(s: State, x: int, p: int)
    requires DelInv(s, x, p) && x != s.root && !IsRed(s, x) && 0 <= p < |s.left|
    requires var w := Sib(s, x, p);
      0 <= w < |s.left| && !s.red[w] && !IsRed(s, s.left[w]) && !IsRed(s, s.right[w])
    ensures BlackSib(s, x, p)
  {
    SibFacts(s, x, p);
    ChildNarrower(s, Sib(s, x, p));
  }

  lemma BlackSibBalancedAtP(s: State, x: int, p: int)
    requires BlackSib(s, x, p)
    ensures NodeBalanced(Lighten(s, Sib(s, x, p), p), p)
  {
    assert NodeBalanced(s, Sib(s, x, p));
  }

  lemma BlackSibBalancedAtW(s: State, x: int, p: int)
    requires BlackSib(s, x, p)
    ensures NodeBalanced(Lighten(s, Sib(s, x, p), p), Sib(s, x, p))
  {
    assert NodeBalanced(s, Sib(s, x, p));
  }

  lemma BlackSibBalancedElse(s: State, x: int, p: int, m: int)
    requires BlackSib(s, x, p) && Live(s, m) && m != p && m != Sib(s, x, p) && m != s.parent[p]
    ensures NodeBalanced(Lighten(s, Sib(s, x, p), p), m)
  {
    LinksInRange(s, m);
    assert NodeBalanced(s, m);
    var w := Sib(s, x, p);
    KeptAt(s, Lighten(s, w, p), w, p, p, m, x, p);
  }

  lemma BlackSibShort(s: State, x: int, p: int)
    requires BlackSib(s, x, p)
    ensures Short(Lighten(s, Sib(s, x, p), p), p, s.parent[p])
  {
    var pp := s.parent[p];
    if pp != -1 {
      assert NodeBalanced(s, pp);
    }
  }

  lemma BlackSibRedAtTop(s: State, x: int, p: int)
    requires BlackSib(s, x, p) && s.parent[p] != -1
    ensures NodeRedOk(Lighten(s, Sib(s, x, p), p), s.parent[p], p)
  {
    assert NodeRedOk(s, s.parent[p], x);
  }

  lemma BlackSibRedElse(s: State, x: int, p: int, m: int)
    requires BlackSib(s, x, p) && Live(s, m) && m != p && m != s.parent[p] && m != Sib(s, x, p) && m != x
    ensures NodeRedOk(Lighten(s, Sib(s, x, p), p), m, p)
  {
    LinksInRange(s, m);
    assert NodeRedOk(s, m, x);
    var w := Sib(s, x, p);
    KeptAt(s, Lighten(s, w, p), w, p, p, m, x, p);
  }

  lemma BlackSibRedAt(s: State, x: int, p: int, m: int)
    requires BlackSib(s, x, p) && Live(s, m) && m != p
    ensures NodeRedOk(Lighten(s, Sib(s, x, p), p), m, p)
  {
    if m == s.parent[p] {
      BlackSibRedAtTop(s, x, p);
    } else if m != Sib(s, x, p) && m != x {
      BlackSibRedElse(s, x, p, m);
    }
  }

  /** Lines 289-291: with a black sibling whose children are black, the
      sibling turns red and the missing black node moves up to p. */
  lemma PushUp(s: State, x: int, p: int)
    requires DelInv(s, x, p) && x != s.root && !IsRed(s, x) && 0 <= p < |s.left|
    requires var w := Sib(s, x, p);
      0 <= w < |s.left| && !s.red[w] && !IsRed(s, s.left[w]) && !IsRed(s, s.right[w])
    ensures var t := Lighten(s, Sib(s, x, p), p);
      DelInv(t, p, s.parent[p]) && Span(t, x) < Span(t, p) && t.sq == s.sq && t.count == s.count
  {
    BlackSibFacts(s, x, p);
    var w, pp := Sib(s, x, p), s.parent[p];
    var t := Lighten(s, w, p);
    ShapeKept(s, t);
    forall m | Live(t, m) && m != pp
      ensures NodeBalanced(t, m)
    {
      if m == p {
        BlackSibBalancedAtP(s, x, p);
      } else if m == w {
        BlackSibBalancedAtW(s, x, p);
      } else {
        BlackSibBalancedElse(s, x, p, m);
      }
    }
    forall m | Live(t, m) && m != p
      ensures NodeRedOk(t, m, p)
    {
      BlackSibRedAt(s, x, p, m);
    }
    BlackSibShort(s, x, p);
  }

  // ---------------------------------------------------------------------
  // A red sibling on the right (lines 237-243)

  ghost predicate RedSibL(s: State, x: int, p: int)
  {
    DelInv(s, x, p) && !IsRed(s, x) && 0 <= p < |s.left| && Live(s, p) && NodeLinked(s, p) &&
    s.left[p] == x && x != p && (x != -1 ==> Live(s, x) && s.parent[x] == p) &&
    var w, pp := s.right[p], s.parent[p];
    Live(s, w) && NodeLinked(s, w) && s.parent[w] == p && s.red[w] && !s.red[p] && w != x && w != p &&
    Live(s, s.left[w]) && !s.red[s.left[w]] && s.left[w] != p && s.left[w] != w && s.left[w] != x &&
    Live(s, s.right[w]) && !s.red[s.right[w]] && s.right[w] != p && s.right[w] != w &&
    (pp != -1 ==> Live(s, pp) && NodeLinked(s, pp) && pp != w && pp != x && pp != p) &&
    !IsRed(s, s.root)
  }

  lemma RedSibLFacts(s: State, x: int, p: int)
    requires DelInv(s, x, p) && x != s.root && !IsRed(s, x) && 0 <= p < |s.left|
    requires s.left[p] == x && IsRed(s, s.right[p])
    ensures RedSibL(s, x, p)
  {
    SibFacts(s, x, p);
    var w := s.right[p];
    ChildNarrower(s, w);
    LinksInRange(s, w);
    assert NodeRedOk(s, w, x) && NodeRedOk(s, p, x) && NodeBalanced(s, w);
  }

  /** The state after the recolouring and the rotation, against s. */
  ghost predicate RedSibLStep(s: State, t: State, p: int)
  {
    WF(s) && 0 <= p < |s.left| && CanRotL(s, p) &&
    WF(t) && |t.left| == |s.left| && t.sq == s.sq && t.pos == s.pos && t.bh == s.bh &&
    t.red == s.red[s.right[p] := false][p := true] && KidsAfterL(s, t, p)
  }

  lemma RedSibLBalancedAtW(s: State, t: State, x: int, p: int)
    requires RedSibL(s, x, p) && RedSibLStep(s, t, p)
    ensures NodeBalanced(t, s.right[p])
  {
    assert NodeBalanced(s, s.right[p]);
  }

  lemma RedSibLBalancedAtTop(s: State, t: State, x: int, p: int)
    requires RedSibL(s, x, p) && RedSibLStep(s, t, p) && s.parent[p] != -1
    ensures NodeBalanced(t, s.parent[p])
  {
    var pp, w := s.parent[p], s.right[p];
    assert NodeBalanced(s, pp);
    var o := Sib(s, p, pp);
    if o != -1 {
      assert s.parent[o] == pp;
    }
    RedSibLRecoloured(s, t, p);
    ReplacedAt(s, t, w, p, p, pp, p, w);
  }

  lemma RedSibLBalancedElse(s: State, t: State, x: int, p: int, m: int)
    requires RedSibL(s, x, p) && RedSibLStep(s, t, p) && Live(s, m)
    requires m != p && m != s.right[p] && m != s.parent[p]
    ensures NodeBalanced(t, m)
  {
    LinksInRange(s, m);
    assert NodeBalanced(s, m);
    RedSibLRecoloured(s, t, p);
    KeptAt(s, t, s.right[p], p, p, m, x, x);
  }

  lemma RedSibLRecoloured(s: State, t: State, p: int)
    requires RedSibLStep(s, t, p)
    ensures Recoloured(s, t, s.right[p], p, p)
  {
  }

  lemma RedSibLShort(s: State, t: State, x: int, p: int)
    requires RedSibL(s, x, p) && RedSibLStep(s, t, p)
    ensures Short(t, x, p)
  {
    assert NodeBalanced(s, s.right[p]);
  }

  lemma RedSibLRedAt(s: State, t: State, x: int, p: int, m: int)
    requires RedSibL(s, x, p) && RedSibLStep(s, t, p) && Live(s, m) && m != x
    ensures NodeRedOk(t, m, x)
  {
    if m == s.parent[p] {
      assert NodeRedOk(s, m, x);
    } else if m != p && m != s.right[p] {
      LinksInRange(s, m);
      assert NodeRedOk(s, m, x);
      RedSibLRecoloured(s, t, p);
      KeptAt(s, t, s.right[p], p, p, m, x, x);
    }
  }

  lemma RedSibLRoot(s: State, t: State, x: int, p: int)
    requires RedSibL(s, x, p) && RedSibLStep(s, t, p)
    ensures !IsRed(t, t.root) && t.root != x
  {
    assert s.parent[s.root] == -1;
  }

  lemma RedSibLSetup(s: State, p: int)
    requires Struct(s) && 0 <= p < |s.left| && Live(s, p) && 0 <= s.right[p] < |s.left|
    ensures CanRotL(Paint(s, s.right[p], p), p)
    ensures var t := RotL(Paint(s, s.right[p], p), p);
      Struct(t) && RedSibLStep(s, t, p) && t.count == s.count
  {
    var u := Paint(s, s.right[p], p);
    ShapeKept(s, u);
    RotLStruct(u, p);
    RotLKids(u, p);
  }

  /** x, away from the rotated nodes, keeps the places it covers. */
  lemma RedSibLSpan(s: State, x: int, p: int)
    requires Struct(s) && 0 <= p < |s.left| && Live(s, p) && 0 <= s.right[p] < |s.left|
    requires 0 <= x < |s.left| && x != p && x != s.right[p] && x != s.parent[p] && x != s.left[s.right[p]]
    ensures CanRotL(Paint(s, s.right[p], p), p)
    ensures Span(RotL(Paint(s, s.right[p], p), p), x) == Span(s, x)
  {
    var u := Paint(s, s.right[p], p);
    ShapeKept(s, u);
    RotLIsReady(u, p);
    RotLElsewhere(u, p, x);
  }

  /** The colour rules after the recolouring and the rotation. */
  lemma RedSibLColours(s: State, t: State, x: int, p: int)
    requires RedSibL(s, x, p) && RedSibLStep(s, t, p) && Struct(t)
    ensures DelInv(t, x, p) && x != t.root && !IsRed(t, x) && t.left[p] == x && !IsRed(t, t.right[p])
  {
    forall m | Live(t, m) && m != p
      ensures NodeBalanced(t, m)
    {
      if m == s.right[p] {
        RedSibLBalancedAtW(s, t, x, p);
      } else if m == s.parent[p] {
        RedSibLBalancedAtTop(s, t, x, p);
      } else {
        RedSibLBalancedElse(s, t, x, p, m);
      }
    }
    forall m | Live(t, m) && m != x
      ensures NodeRedOk(t, m, x)
    {
      RedSibLRedAt(s, t, x, p, m);
    }
    RedSibLShort(s, t, x, p);
    RedSibLRoot(s, t, x, p);
    assert NodeLinked(t, p);
  }

  /** Lines 237-243: the red sibling turns black, p red, and p is rotated
      down to the left; x keeps p as its parent and gets a black sibling. */
  lemma RotateSiblingL(s: State, x: int, p: int)
    requires DelInv(s, x, p) && x != s.root && !IsRed(s, x) && 0 <= p < |s.left|
    requires s.left[p] == x && IsRed(s, s.right[p])
    ensures 0 <= s.right[p] < |s.left| && CanRotL(Paint(s, s.right[p], p), p)
    ensures var t := RotL(Paint(s, s.right[p], p), p);
      DelInv(t, x, p) && x != t.root && !IsRed(t, x) && t.left[p] == x && !IsRed(t, t.right[p]) &&
      t.sq == s.sq && t.count == s.count && Span(t, x) == Span(s, x)
  {
    RedSibLFacts(s, x, p);
    RedSibLSetup(s, p);
    if x != -1 {
      RedSibLSpan(s, x, p);
    }
    RedSibLColours(s, RotL(Paint(s, s.right[p], p), p), x, p);
  }

  // ---------------------------------------------------------------------
  // A black sibling on the right whose near child is red and far child
  // is not (lines 248-254)

  ghost predicate NearRedL(s: State, x: int, p: int)
  {
    DelInv(s, x, p) && !IsRed(s, x) && 0 <= p < |s.left| && Live(s, p) && NodeLinked(s, p) &&
    s.left[p] == x && x != p && (x != -1 ==> Live(s, x) && s.parent[x] == p) &&
    var w := s.right[p];
    Live(s, w) && NodeLinked(s, w) && s.parent[w] == p && !s.red[w] && w != x && w != p &&
    var q, c := s.left[w], s.right[w];
    Live(s, q) && NodeLinked(s, q) && s.red[q] && s.parent[q] == w && q != p && q != x && q != w &&
    !IsRed(s, c) && c != w && c != q && c != p &&
    !IsRed(s, s.left[q]) && !IsRed(s, s.right[q]) &&
    s.left[q] != w && s.right[q] != w && s.left[q] != q && s.right[q] != q &&
    s.left[q] != p && s.right[q] != p && (x != -1 ==> s.right[q] != x) &&
    !IsRed(s, s.root)
  }

  lemma NearRedLFacts(s: State, x: int, p: int)
    requires DelInv(s, x, p) && x != s.root && !IsRed(s, x) && 0 <= p < |s.left| && s.left[p] == x
    requires 0 <= s.right[p] < |s.left| && !s.red[s.right[p]]
    requires IsRed(s, s.left[s.right[p]]) && !IsRed(s, s.right[s.right[p]])
    ensures NearRedL(s, x, p)
  {
    SibFacts(s, x, p);
    var w := s.right[p];
    ChildNarrower(s, w);
    LinksInRange(s, w);
    var q := s.left[w];
    ChildNarrower(s, q);
    LinksInRange(s, q);
    assert NodeRedOk(s, q, x);
  }

  ghost predicate NearRedLStep(s: State, t: State, p: int)
  {
    WF(s) && 0 <= p < |s.left| && 0 <= s.right[p] < |s.left| && CanRotR(s, s.right[p]) &&
    WF(t) && |t.left| == |s.left| && t.sq == s.sq && t.pos == s.pos && t.bh == s.bh &&
    t.red == s.red[s.left[s.right[p]] := false][s.right[p] := true] && KidsAfterR(s, t, s.right[p])
  }

  lemma NearRedLBalancedAtQ(s: State, t: State, x: int, p: int)
    requires NearRedL(s, x, p) && NearRedLStep(s, t, p)
    ensures NodeBalanced(t, s.left[s.right[p]])
  {
    var w := s.right[p];
    assert NodeBalanced(s, w) && NodeBalanced(s, s.left[w]);
  }

  lemma NearRedLBalancedAtW(s: State, t: State, x: int, p: int)
    requires NearRedL(s, x, p) && NearRedLStep(s, t, p)
    ensures NodeBalanced(t, s.right[p])
  {
    var w := s.right[p];
    assert NodeBalanced(s, w) && NodeBalanced(s, s.left[w]);
  }

  lemma NearRedLBalancedElse(s: State, t: State, x: int, p: int, m: int)
    requires NearRedL(s, x, p) && NearRedLStep(s, t, p) && Live(s, m)
    requires m != p && m != s.right[p] && m != s.left[s.right[p]]
    ensures NodeBalanced(t, m)
  {
    LinksInRange(s, m);
    assert NodeBalanced(s, m);
    var w := s.right[p];
    NearRedLRecoloured(s, t, p);
    KeptAt(s, t, s.left[w], w, w, m, x, x);
  }

  lemma NearRedLRecoloured(s: State, t: State, p: int)
    requires NearRedLStep(s, t, p)
    ensures var w := s.right[p]; Recoloured(s, t, s.left[w], w, w)
  {
  }

  lemma NearRedLShort(s: State, t: State, x: int, p: int)
    requires NearRedL(s, x, p) && NearRedLStep(s, t, p)
    ensures Short(t, x, p)
  {
    var w := s.right[p];
    assert NodeBalanced(s, w);
  }

  lemma NearRedLRedAt(s: State, t: State, x: int, p: int, m: int)
    requires NearRedL(s, x, p) && NearRedLStep(s, t, p) && Live(s, m) && m != x
    ensures NodeRedOk(t, m, x)
  {
    var w := s.right[p];
    if m != p && m != w && m != s.left[w] {
      LinksInRange(s, m);
      assert NodeRedOk(s, m, x);
      NearRedLRecoloured(s, t, p);
      KeptAt(s, t, s.left[w], w, w, m, x, x);
    }
  }

  lemma NearRedLRoot(s: State, t: State, x: int, p: int)
    requires NearRedL(s, x, p) && NearRedLStep(s, t, p)
    ensures t.root == s.root && !IsRed(t, t.root)
  {
    assert s.parent[s.root] == -1;
  }

  lemma NearRedLSetup(s: State, p: int)
    requires Struct(s) && 0 <= p < |s.left| && 0 <= s.right[p] < |s.left| && Live(s, s.right[p])
    requires 0 <= s.left[s.right[p]] < |s.left| && s.parent[s.right[p]] == p
    ensures var w := s.right[p]; CanRotR(Paint(s, s.left[w], w), w)
    ensures var w := s.right[p]; var t := RotR(Paint(s, s.left[w], w), w);
      Struct(t) && NearRedLStep(s, t, p) && t.count == s.count
  {
    var w := s.right[p];
    var u := Paint(s, s.left[w], w);
    ShapeKept(s, u);
    RotRStruct(u, w);
    RotRKids(u, w);
  }

  /** x, away from the rotated nodes, keeps the places it covers. */
  lemma NearRedLSpan(s: State, x: int, p: int)
    requires Struct(s) && 0 <= p < |s.left| && 0 <= s.right[p] < |s.left| && Live(s, s.right[p])
    requires 0 <= s.left[s.right[p]] < |s.left| && s.parent[s.right[p]] == p
    requires 0 <= x < |s.left| && x != p && x != s.right[p] && x != s.left[s.right[p]] &&
      x != s.right[s.left[s.right[p]]]
    ensures var w := s.right[p]; CanRotR(Paint(s, s.left[w], w), w)
    ensures var w := s.right[p]; Span(RotR(Paint(s, s.left[w], w), w), x) == Span(s, x)
  {
    var w := s.right[p];
    var u := Paint(s, s.left[w], w);
    ShapeKept(s, u);
    RotRIsReady(u, w);
    RotRElsewhere(u, w, x);
  }

  lemma NearRedLColours(s: State, t: State, x: int, p: int)
    requires NearRedL(s, x, p) && NearRedLStep(s, t, p) && Struct(t)
    ensures DelInv(t, x, p) && x != t.root && !IsRed(t, x) && t.left[p] == x && 0 <= t.right[p] < |t.left| &&
      !t.red[t.right[p]] && IsRed(t, t.right[t.right[p]])
  {
    var w := s.right[p];
    forall m | Live(t, m) && m != p
      ensures NodeBalanced(t, m)
    {
      if m == s.left[w] {
        NearRedLBalancedAtQ(s, t, x, p);
      } else if m == w {
        NearRedLBalancedAtW(s, t, x, p);
      } else {
        NearRedLBalancedElse(s, t, x, p, m);
      }
    }
    forall m | Live(t, m) && m != x
      ensures NodeRedOk(t, m, x)
    {
      NearRedLRedAt(s, t, x, p, m);
    }
    NearRedLShort(s, t, x, p);
    NearRedLRoot(s, t, x, p);
    assert NodeLinked(t, p);
  }

  /** Lines 248-254: the red near child q of the sibling w turns black, w
      red, and w is rotated down to the right; q is x's new sibling, black
      with a red far child. */
  lemma RotateNearL(s: State, x: int, p: int)
    requires DelInv(s, x, p) && x != s.root && !IsRed(s, x) && 0 <= p < |s.left| && s.left[p] == x
    requires 0 <= s.right[p] < |s.left| && !s.red[s.right[p]]
    requires IsRed(s, s.left[s.right[p]]) && !IsRed(s, s.right[s.right[p]])
    ensures var w := s.right[p]; 0 <= s.left[w] < |s.left| && CanRotR(Paint(s, s.left[w], w), w)
    ensures var w := s.right[p]; var t := RotR(Paint(s, s.left[w], w), w);
      DelInv(t, x, p) && x != t.root && !IsRed(t, x) && t.left[p] == x && 0 <= t.right[p] < |t.left| &&
      !t.red[t.right[p]] && IsRed(t, t.right[t.right[p]]) &&
      t.sq == s.sq && t.count == s.count && Span(t, x) == Span(s, x)
  {
    NearRedLFacts(s, x, p);
    NearRedLSetup(s, p);
    if x != -1 {
      NearRedLSpan(s, x, p);
    }
    var w := s.right[p];
    NearRedLColours(s, RotR(Paint(s, s.left[w], w), w), x, p);
  }

  // ---------------------------------------------------------------------
  // A black sibling on the right with a red far child (lines 255-259)

  /** The sibling w takes p's colour, p and w's child r turn black; p's
      paths (after the rotation: x and w's other child) count one black
      node less than before and w's one more. */
  ghost function Settle(s: State, p: int, w: int, r: int): (u: State)
    requires WF(s) && 0 <= p < |s.left| && 0 <= w < |s.left| && 0 <= r < |s.left|
    ensures SameShape(s, u)
  {
    s.(red := s.red[w := s.red[p]][p := false][r := false], bh := s.bh[p := s.bh[p] - 1][w := s.bh[p]])
  }

  ghost predicate FarRedL(s: State, x: int, p: int)
  {
    DelInv(s, x, p) && !IsRed(s, x) && 0 <= p < |s.left| && Live(s, p) && NodeLinked(s, p) &&
    s.left[p] == x && x != p && (x != -1 ==> Live(s, x) && s.parent[x] == p) && s.bh[p] >= 1 &&
    var w, pp := s.right[p], s.parent[p];
    Live(s, w) && NodeLinked(s, w) && s.parent[w] == p && !s.red[w] && w != x && w != p &&
    var a, r := s.left[w], s.right[w];
    Live(s, r) && NodeLinked(s, r) && s.red[r] && s.parent[r] == w && r != p && r != x && r != w &&
    a != p && a != w && a != r && (x != -1 ==> a != x) &&
    (pp != -1 ==> Live(s, pp) && NodeLinked(s, pp) && pp != w && pp != x && pp != r && pp != p) &&
    (pp != -1 && s.red[p] ==> !s.red[pp]) &&
    !IsRed(s, s.root)
  }

  lemma FarRedLFacts(s: State, x: int, p: int)
    requires DelInv(s, x, p) && x != s.root && !IsRed(s, x) && 0 <= p < |s.left| && s.left[p] == x
    requires 0 <= s.right[p] < |s.left| && !s.red[s.right[p]] && IsRed(s, s.right[s.right[p]])
    ensures FarRedL(s, x, p)
  {
    SibFacts(s, x, p);
    var w := s.right[p];
    ChildNarrower(s, w);
    LinksInRange(s, w);
    var r := s.right[w];
    LinksInRange(s, r);
    if s.parent[p] != -1 {
      assert NodeRedOk(s, s.parent[p], x);
    }
  }

  ghost predicate FarRedLStep(s: State, t: State, p: int)
  {
    WF(s) && 0 <= p < |s.left| && CanRotL(s, p) && 0 <= s.right[s.right[p]] < |s.left| &&
    WF(t) && |t.left| == |s.left| && t.sq == s.sq && t.pos == s.pos &&
    var w := s.right[p];
    t.red == s.red[w := s.red[p]][p := false][s.right[w] := false] &&
    t.bh == s.bh[p := s.bh[p] - 1][w := s.bh[p]] && KidsAfterL(s, t, p)
  }

  lemma FarRedLBalancedAtP(s: State, t: State, x: int, p: int)
    requires FarRedL(s, x, p) && FarRedLStep(s, t, p)
    ensures NodeBalanced(t, p)
  {
    assert NodeBalanced(s, s.right[p]);
  }

  lemma FarRedLBalancedAtW(s: State, t: State, x: int, p: int)
    requires FarRedL(s, x, p) && FarRedLStep(s, t, p)
    ensures NodeBalanced(t, s.right[p])
  {
    assert NodeBalanced(s, s.right[p]);
  }

  lemma FarRedLBalancedAtTop(s: State, t: State, x: int, p: int)
    requires FarRedL(s, x, p) && FarRedLStep(s, t, p) && s.parent[p] != -1
    ensures NodeBalanced(t, s.parent[p])
  {
    var pp, w := s.parent[p], s.right[p];
    assert NodeBalanced(s, pp);
    var o := Sib(s, p, pp);
    if o != -1 {
      assert s.parent[o] == pp;
    }
    FarRedLRecoloured(s, t, p);
    ReplacedAt(s, t, w, p, s.right[w], pp, p, w);
  }

  lemma FarRedLBalancedAtR(s: State, t: State, x: int, p: int)
    requires FarRedL(s, x, p) && FarRedLStep(s, t, p)
    ensures NodeBalanced(t, s.right[s.right[p]])
  {
    var r := s.right[s.right[p]];
    assert NodeBalanced(s, r);
  }

  lemma FarRedLBalancedElse(s: State, t: State, x: int, p: int, m: int)
    requires FarRedL(s, x, p) && FarRedLStep(s, t, p) && Live(s, m)
    requires m != p && m != s.right[p] && m != s.parent[p] && m != s.right[s.right[p]]
    ensures NodeBalanced(t, m)
  {
    var w := s.right[p];
    LinksInRange(s, m);
    assert NodeBalanced(s, m);
    FarRedLRecoloured(s, t, p);
    KeptAt(s, t, w, p, s.right[w], m, x, -1);
  }

  lemma FarRedLBalancedAt(s: State, t: State, x: int, p: int, m: int)
    requires FarRedL(s, x, p) && FarRedLStep(s, t, p) && Live(s, m)
    ensures NodeBalanced(t, m)
  {
    if m == p {
      FarRedLBalancedAtP(s, t, x, p);
    } else if m == s.right[p] {
      FarRedLBalancedAtW(s, t, x, p);
    } else if m == s.parent[p] {
      FarRedLBalancedAtTop(s, t, x, p);
    } else if m == s.right[s.right[p]] {
      FarRedLBalancedAtR(s, t, x, p);
    } else {
      FarRedLBalancedElse(s, t, x, p, m);
    }
  }

  lemma FarRedLRedAtTop(s: State, t: State, x: int, p: int)
    requires FarRedL(s, x, p) && FarRedLStep(s, t, p) && s.parent[p] != -1
    ensures NodeRedOk(t, s.parent[p], -1)
  {
    assert NodeRedOk(s, s.parent[p], x);
  }

  lemma FarRedLRedElse(s: State, t: State, x: int, p: int, m: int)
    requires FarRedL(s, x, p) && FarRedLStep(s, t, p) && Live(s, m)
    requires m != p && m != s.right[p] && m != s.parent[p] && m != s.right[s.right[p]] && m != x
    ensures NodeRedOk(t, m, -1)
  {
    var w := s.right[p];
    LinksInRange(s, m);
    assert NodeRedOk(s, m, x);
    FarRedLRecoloured(s, t, p);
    KeptAt(s, t, w, p, s.right[w], m, x, -1);
  }

  lemma FarRedLRecoloured(s: State, t: State, p: int)
    requires FarRedLStep(s, t, p)
    ensures var w := s.right[p]; Recoloured(s, t, w, p, s.right[w])
  {
  }

  lemma FarRedLRedAt(s: State, t: State, x: int, p: int, m: int)
    requires FarRedL(s, x, p) && FarRedLStep(s, t, p) && Live(s, m)
    ensures NodeRedOk(t, m, -1)
  {
    var w := s.right[p];
    if m == s.parent[p] {
      FarRedLRedAtTop(s, t, x, p);
    } else if m != p && m != w && m != s.right[w] && m != x {
      FarRedLRedElse(s, t, x, p, m);
    }
  }

  lemma FarRedLRoot(s: State, t: State, x: int, p: int)
    requires FarRedL(s, x, p) && FarRedLStep(s, t, p)
    ensures RootBlack(t)
  {
    assert s.parent[s.root] == -1;
  }

  lemma FarRedLSetup(s: State, x: int, p: int)
    requires Struct(s) && 0 <= p < |s.left| && Live(s, p) && 0 <= s.right[p] < |s.left|
    requires 0 <= s.right[s.right[p]] < |s.left|
    ensures var w := s.right[p]; CanRotL(Settle(s, p, w, s.right[w]), p)
    ensures var w := s.right[p]; var t := RotL(Settle(s, p, w, s.right[w]), p);
      Struct(t) && FarRedLStep(s, t, p) && t.count == s.count
  {
    var w := s.right[p];
    var u := Settle(s, p, w, s.right[w]);
    ShapeKept(s, u);
    RotLStruct(u, p);
    RotLKids(u, p);
  }

  lemma FarRedLColours(s: State, t: State, x: int, p: int)
    requires FarRedL(s, x, p) && FarRedLStep(s, t, p) && Struct(t)
    ensures Inv(t)
  {
    forall m | Live(t, m)
      ensures NodeBalanced(t, m) && NodeRedOk(t, m, -1)
    {
      FarRedLBalancedAt(s, t, x, p, m);
      FarRedLRedAt(s, t, x, p, m);
    }
    FarRedLRoot(s, t, x, p);
  }

  /** Lines 255-259: the sibling w takes p's colour, p and w's red far
      child turn black, and p is rotated down to the left: the paths
      through x gain the black p and the tree is a red-black tree again. */
  lemma RotateFarL(s: State, x: int, p: int)
    requires DelInv(s, x, p) && x != s.root && !IsRed(s, x) && 0 <= p < |s.left| && s.left[p] == x
    requires 0 <= s.right[p] < |s.left| && !s.red[s.right[p]] && IsRed(s, s.right[s.right[p]])
    ensures var w := s.right[p]; 0 <= s.right[w] < |s.left| && CanRotL(Settle(s, p, w, s.right[w]), p)
    ensures var w := s.right[p]; var t := RotL(Settle(s, p, w, s.right[w]), p);
      Inv(t) && t.sq == s.sq && t.count == s.count
  {
    FarRedLFacts(s, x, p);
    FarRedLSetup(s, x, p);
    var w := s.right[p];
    FarRedLColours(s, RotL(Settle(s, p, w, s.right[w]), p), x, p);
  }

}
