/** The mirror cases of the recolouring loop after a removal, for x on
    the right of p (RedBlackTree.cs:262-288): the sibling is p's left child
    and every rotation turns the other way. */
module TreeEraseRight {
  import opened TreeState
  import opened TreeRotate
  import opened TreeFixup
  import opened TreeSplice
  import opened TreeErase

  // ---------------------------------------------------------------------
  // A red sibling on the left (lines 265-271)

  ghost predicate RedSibR(s: State, x: int, p: int)
  {
    DelInv(s, x, p) && !IsRed(s, x) && 0 <= p < |s.left| && Live(s, p) && NodeLinked(s, p) &&
    s.right[p] == x && x != p && (x != -1 ==> Live(s, x) && s.parent[x] == p) &&
    var w, pp := s.left[p], s.parent[p];
    Live(s, w) && NodeLinked(s, w) && s.parent[w] == p && s.red[w] && !s.red[p] && w != x && w != p &&
    Live(s, s.right[w]) && !s.red[s.right[w]] && s.right[w] != p && s.right[w] != w && s.right[w] != x &&
    Live(s, s.left[w]) && !s.red[s.left[w]] && s.left[w] != p && s.left[w] != w &&
    (pp != -1 ==> Live(s, pp) && NodeLinked(s, pp) && pp != w && pp != x && pp != p) &&
    !IsRed(s, s.root)
  }

  lemma RedSibRFacts(s: State, x: int, p: int)
    requires DelInv(s, x, p) && x != s.root && !IsRed(s, x) && 0 <= p < |s.left|
    requires s.left[p] != x && IsRed(s, s.left[p])
    ensures RedSibR(s, x, p)
  {
    SibFacts(s, x, p);
    var w := s.left[p];
    ChildNarrower(s, w);
    LinksInRange(s, w);
    assert NodeRedOk(s, w, x) && NodeRedOk(s, p, x) && NodeBalanced(s, w);
  }

  /** The state after the recolouring and the rotation, against s. */
  ghost predicate RedSibRStep(s: State, t: State, p: int)
  {
    WF(s) && 0 <= p < |s.left| && CanRotR(s, p) &&
    WF(t) && |t.left| == |s.left| && t.sq == s.sq && t.pos == s.pos && t.bh == s.bh &&
    t.red == s.red[s.left[p] := false][p := true] && KidsAfterR(s, t, p)
  }

  lemma RedSibRBalancedAtW(s: State, t: State, x: int, p: int)
    requires RedSibR(s, x, p) && RedSibRStep(s, t, p)
    ensures NodeBalanced(t, s.left[p])
  {
    assert NodeBalanced(s, s.left[p]);
  }

  lemma RedSibRBalancedAtTop(s: State, t: State, x: int, p: int)
    requires RedSibR(s, x, p) && RedSibRStep(s, t, p) && s.parent[p] != -1
    ensures NodeBalanced(t, s.parent[p])
  {
    var pp, w := s.parent[p], s.left[p];
    assert NodeBalanced(s, pp);
    var o := Sib(s, p, pp);
    if o != -1 {
      assert s.parent[o] == pp;
    }
    RedSibRRecoloured(s, t, p);
    ReplacedAt(s, t, w, p, p, pp, p, w);
  }

  lemma RedSibRBalancedElse(s: State, t: State, x: int, p: int, m: int)
    requires RedSibR(s, x, p) && RedSibRStep(s, t, p) && Live(s, m)
    requires m != p && m != s.left[p] && m != s.parent[p]
    ensures NodeBalanced(t, m)
  {
    LinksInRange(s, m);
    assert NodeBalanced(s, m);
    RedSibRRecoloured(s, t, p);
    KeptAt(s, t, s.left[p], p, p, m, x, x);
  }

  lemma RedSibRRecoloured(s: State, t: State, p: int)
    requires RedSibRStep(s, t, p)
    ensures Recoloured(s, t, s.left[p], p, p)
  {
  }

  lemma RedSibRShort(s: State, t: State, x: int, p: int)
    requires RedSibR(s, x, p) && RedSibRStep(s, t, p)
    ensures Short(t, x, p)
  {
    assert NodeBalanced(s, s.left[p]);
  }

  lemma RedSibRRedAt(s: State, t: State, x: int, p: int, m: int)
    requires RedSibR(s, x, p) && RedSibRStep(s, t, p) && Live(s, m) && m != x
    ensures NodeRedOk(t, m, x)
  {
    if m == s.parent[p] {
      assert NodeRedOk(s, m, x);
    } else if m != p && m != s.left[p] {
      LinksInRange(s, m);
      assert NodeRedOk(s, m, x);
      RedSibRRecoloured(s, t, p);
      KeptAt(s, t, s.left[p], p, p, m, x, x);
    }
  }

  lemma RedSibRRoot(s: State, t: State, x: int, p: int)
    requires RedSibR(s, x, p) && RedSibRStep(s, t, p)
    ensures !IsRed(t, t.root) && t.root != x
  {
    assert s.parent[s.root] == -1;
  }

  lemma RedSibRSetup(s: State, p: int)
    requires Struct(s) && 0 <= p < |s.left| && Live(s, p) && 0 <= s.left[p] < |s.left|
    ensures CanRotR(Paint(s, s.left[p], p), p)
    ensures var t := RotR(Paint(s, s.left[p], p), p);
      Struct(t) && RedSibRStep(s, t, p) && t.count == s.count
  {
    var u := Paint(s, s.left[p], p);
    ShapeKept(s, u);
    RotRStruct(u, p);
    RotRKids(u, p);
  }

  /** x, away from the rotated nodes, keeps the places it covers. */
  lemma RedSibRSpan(s: State, x: int, p: int)
    requires Struct(s) && 0 <= p < |s.left| && Live(s, p) && 0 <= s.left[p] < |s.left|
    requires 0 <= x < |s.left| && x != p && x != s.left[p] && x != s.parent[p] && x != s.right[s.left[p]]
    ensures CanRotR(Paint(s, s.left[p], p), p)
    ensures Span(RotR(Paint(s, s.left[p], p), p), x) == Span(s, x)
  {
    var u := Paint(s, s.left[p], p);
    ShapeKept(s, u);
    RotRIsReady(u, p);
    RotRElsewhere(u, p, x);
  }

  /** The colour rules after the recolouring and the rotation. */
  lemma RedSibRColours(s: State, t: State, x: int, p: int)
    requires RedSibR(s, x, p) && RedSibRStep(s, t, p) && Struct(t)
    ensures DelInv(t, x, p) && x != t.root && !IsRed(t, x) && t.right[p] == x && t.left[p] != x && !IsRed(t, t.left[p])
  {
    forall m | Live(t, m) && m != p
      ensures NodeBalanced(t, m)
    {
      if m == s.left[p] {
        RedSibRBalancedAtW(s, t, x, p);
      } else if m == s.parent[p] {
        RedSibRBalancedAtTop(s, t, x, p);
      } else {
        RedSibRBalancedElse(s, t, x, p, m);
      }
    }
    forall m | Live(t, m) && m != x
      ensures NodeRedOk(t, m, x)
    {
      RedSibRRedAt(s, t, x, p, m);
    }
    RedSibRShort(s, t, x, p);
    RedSibRRoot(s, t, x, p);
    assert NodeLinked(t, p);
  }

  /** Lines 265-271: the red sibling turns black, p red, and p is rotated
      down to the right; x keeps p as its parent and gets a black sibling. */
  lemma RotateSiblingR(s: State, x: int, p: int)
    requires DelInv(s, x, p) && x != s.root && !IsRed(s, x) && 0 <= p < |s.left|
    requires s.left[p] != x && IsRed(s, s.left[p])
    ensures 0 <= s.left[p] < |s.left| && CanRotR(Paint(s, s.left[p], p), p)
    ensures var t := RotR(Paint(s, s.left[p], p), p);
      DelInv(t, x, p) && x != t.root && !IsRed(t, x) && t.right[p] == x && t.left[p] != x && !IsRed(t, t.left[p]) &&
      t.sq == s.sq && t.count == s.count && Span(t, x) == Span(s, x)
  {
    RedSibRFacts(s, x, p);
    RedSibRSetup(s, p);
    if x != -1 {
      RedSibRSpan(s, x, p);
    }
    RedSibRColours(s, RotR(Paint(s, s.left[p], p), p), x, p);
  }

  // ---------------------------------------------------------------------
  // A black sibling on the left whose near child is red and far child
  // is not (lines 275-281)

  ghost predicate NearRedR(s: State, x: int, p: int)
  {
    DelInv(s, x, p) && !IsRed(s, x) && 0 <= p < |s.left| && Live(s, p) && NodeLinked(s, p) &&
    s.right[p] == x && x != p && (x != -1 ==> Live(s, x) && s.parent[x] == p) &&
    var w := s.left[p];
    Live(s, w) && NodeLinked(s, w) && s.parent[w] == p && !s.red[w] && w != x && w != p &&
    var q, c := s.right[w], s.left[w];
    Live(s, q) && NodeLinked(s, q) && s.red[q] && s.parent[q] == w && q != p && q != x && q != w &&
    !IsRed(s, c) && c != w && c != q && c != p &&
    !IsRed(s, s.right[q]) && !IsRed(s, s.left[q]) &&
    s.right[q] != w && s.left[q] != w && s.right[q] != q && s.left[q] != q &&
    s.right[q] != p && s.left[q] != p && (x != -1 ==> s.left[q] != x) &&
    !IsRed(s, s.root)
  }

  lemma NearRedRFacts(s: State, x: int, p: int)
    requires DelInv(s, x, p) && x != s.root && !IsRed(s, x) && 0 <= p < |s.left| && s.left[p] != x
    requires 0 <= s.left[p] < |s.left| && !s.red[s.left[p]]
    requires IsRed(s, s.right[s.left[p]]) && !IsRed(s, s.left[s.left[p]])
    ensures NearRedR(s, x, p)
  {
    SibFacts(s, x, p);
    var w := s.left[p];
    ChildNarrower(s, w);
    LinksInRange(s, w);
    var q := s.right[w];
    ChildNarrower(s, q);
    LinksInRange(s, q);
    assert NodeRedOk(s, q, x);
  }

  ghost predicate NearRedRStep(s: State, t: State, p: int)
  {
    WF(s) && 0 <= p < |s.left| && 0 <= s.left[p] < |s.left| && CanRotL(s, s.left[p]) &&
    WF(t) && |t.left| == |s.left| && t.sq == s.sq && t.pos == s.pos && t.bh == s.bh &&
    t.red == s.red[s.right[s.left[p]] := false][s.left[p] := true] && KidsAfterL(s, t, s.left[p])
  }

  lemma NearRedRBalancedAtQ(s: State, t: State, x: int, p: int)
    requires NearRedR(s, x, p) && NearRedRStep(s, t, p)
    ensures NodeBalanced(t, s.right[s.left[p]])
  {
    var w := s.left[p];
    assert NodeBalanced(s, w) && NodeBalanced(s, s.right[w]);
  }

  lemma NearRedRBalancedAtW(s: State, t: State, x: int, p: int)
    requires NearRedR(s, x, p) && NearRedRStep(s, t, p)
    ensures NodeBalanced(t, s.left[p])
  {
    var w := s.left[p];
    assert NodeBalanced(s, w) && NodeBalanced(s, s.right[w]);
  }

  lemma NearRedRBalancedElse(s: State, t: State, x: int, p: int, m: int)
    requires NearRedR(s, x, p) && NearRedRStep(s, t, p) && Live(s, m)
    requires m != p && m != s.left[p] && m != s.right[s.left[p]]
    ensures NodeBalanced(t, m)
  {
    LinksInRange(s, m);
    assert NodeBalanced(s, m);
    var w := s.left[p];
    NearRedRRecoloured(s, t, p);
    KeptAt(s, t, s.right[w], w, w, m, x, x);
  }

  lemma NearRedRRecoloured(s: State, t: State, p: int)
    requires NearRedRStep(s, t, p)
    ensures var w := s.left[p]; Recoloured(s, t, s.right[w], w, w)
  {
  }

  lemma NearRedRShort(s: State, t: State, x: int, p: int)
    requires NearRedR(s, x, p) && NearRedRStep(s, t, p)
    ensures Short(t, x, p)
  {
    var w := s.left[p];
    assert NodeBalanced(s, w);
  }

  lemma NearRedRRedAt(s: State, t: State, x: int, p: int, m: int)
    requires NearRedR(s, x, p) && NearRedRStep(s, t, p) && Live(s, m) && m != x
    ensures NodeRedOk(t, m, x)
  {
    var w := s.left[p];
    if m != p && m != w && m != s.right[w] {
      LinksInRange(s, m);
      assert NodeRedOk(s, m, x);
      NearRedRRecoloured(s, t, p);
      KeptAt(s, t, s.right[w], w, w, m, x, x);
    }
  }

  lemma NearRedRRoot(s: State, t: State, x: int, p: int)
    requires NearRedR(s, x, p) && NearRedRStep(s, t, p)
    ensures t.root == s.root && !IsRed(t, t.root)
  {
    assert s.parent[s.root] == -1;
  }

  lemma NearRedRSetup(s: State, p: int)
    requires Struct(s) && 0 <= p < |s.left| && 0 <= s.left[p] < |s.left| && Live(s, s.left[p])
    requires 0 <= s.right[s.left[p]] < |s.left| && s.parent[s.left[p]] == p
    ensures var w := s.left[p]; CanRotL(Paint(s, s.right[w], w), w)
    ensures var w := s.left[p]; var t := RotL(Paint(s, s.right[w], w), w);
      Struct(t) && NearRedRStep(s, t, p) && t.count == s.count
  {
    var w := s.left[p];
    var u := Paint(s, s.right[w], w);
    ShapeKept(s, u);
    RotLStruct(u, w);
    RotLKids(u, w);
  }

  /** x, away from the rotated nodes, keeps the places it covers. */
  lemma NearRedRSpan(s: State, x: int, p: int)
    requires Struct(s) && 0 <= p < |s.left| && 0 <= s.left[p] < |s.left| && Live(s, s.left[p])
    requires 0 <= s.right[s.left[p]] < |s.left| && s.parent[s.left[p]] == p
    requires 0 <= x < |s.left| && x != p && x != s.left[p] && x != s.right[s.left[p]] &&
      x != s.left[s.right[s.left[p]]]
    ensures var w := s.left[p]; CanRotL(Paint(s, s.right[w], w), w)
    ensures var w := s.left[p]; Span(RotL(Paint(s, s.right[w], w), w), x) == Span(s, x)
  {
    var w := s.left[p];
    var u := Paint(s, s.right[w], w);
    ShapeKept(s, u);
    RotLIsReady(u, w);
    RotLElsewhere(u, w, x);
  }

  lemma NearRedRColours(s: State, t: State, x: int, p: int)
    requires NearRedR(s, x, p) && NearRedRStep(s, t, p) && Struct(t)
    ensures DelInv(t, x, p) && x != t.root && !IsRed(t, x) && t.right[p] == x && t.left[p] != x && 0 <= t.left[p] < |t.left| &&
      !t.red[t.left[p]] && IsRed(t, t.left[t.left[p]])
  {
    var w := s.left[p];
    forall m | Live(t, m) && m != p
      ensures NodeBalanced(t, m)
    {
      if m == s.right[w] {
        NearRedRBalancedAtQ(s, t, x, p);
      } else if m == w {
        NearRedRBalancedAtW(s, t, x, p);
      } else {
        NearRedRBalancedElse(s, t, x, p, m);
      }
    }
    forall m | Live(t, m) && m != x
      ensures NodeRedOk(t, m, x)
    {
      NearRedRRedAt(s, t, x, p, m);
    }
    NearRedRShort(s, t, x, p);
    NearRedRRoot(s, t, x, p);
    assert NodeLinked(t, p);
  }

  /** Lines 275-281: the red near child q of the sibling w turns black, w
      red, and w is rotated down to the left; q is x's new sibling, black
      with a red far child. */
  lemma RotateNearR(s: State, x: int, p: int)
    requires DelInv(s, x, p) && x != s.root && !IsRed(s, x) && 0 <= p < |s.left| && s.left[p] != x
    requires 0 <= s.left[p] < |s.left| && !s.red[s.left[p]]
    requires IsRed(s, s.right[s.left[p]]) && !IsRed(s, s.left[s.left[p]])
    ensures var w := s.left[p]; 0 <= s.right[w] < |s.left| && CanRotL(Paint(s, s.right[w], w), w)
    ensures var w := s.left[p]; var t := RotL(Paint(s, s.right[w], w), w);
      DelInv(t, x, p) && x != t.root && !IsRed(t, x) && t.right[p] == x && t.left[p] != x && 0 <= t.left[p] < |t.left| &&
      !t.red[t.left[p]] && IsRed(t, t.left[t.left[p]]) &&
      t.sq == s.sq && t.count == s.count && Span(t, x) == Span(s, x)
  {
    NearRedRFacts(s, x, p);
    NearRedRSetup(s, p);
    if x != -1 {
      NearRedRSpan(s, x, p);
    }
    var w := s.left[p];
    NearRedRColours(s, RotL(Paint(s, s.right[w], w), w), x, p);
  }

  // ---------------------------------------------------------------------
  // A black sibling on the left with a red far child (lines 282-286)

  ghost predicate FarRedR(s: State, x: int, p: int)
  {
    DelInv(s, x, p) && !IsRed(s, x) && 0 <= p < |s.left| && Live(s, p) && NodeLinked(s, p) &&
    s.right[p] == x && x != p && (x != -1 ==> Live(s, x) && s.parent[x] == p) && s.bh[p] >= 1 &&
    var w, pp := s.left[p], s.parent[p];
    Live(s, w) && NodeLinked(s, w) && s.parent[w] == p && !s.red[w] && w != x && w != p &&
    var a, r := s.right[w], s.left[w];
    Live(s, r) && NodeLinked(s, r) && s.red[r] && s.parent[r] == w && r != p && r != x && r != w &&
    a != p && a != w && a != r && (x != -1 ==> a != x) &&
    (pp != -1 ==> Live(s, pp) && NodeLinked(s, pp) && pp != w && pp != x && pp != r && pp != p) &&
    (pp != -1 && s.red[p] ==> !s.red[pp]) &&
    !IsRed(s, s.root)
  }

  lemma FarRedRFacts(s: State, x: int, p: int)
    requires DelInv(s, x, p) && x != s.root && !IsRed(s, x) && 0 <= p < |s.left| && s.left[p] != x
    requires 0 <= s.left[p] < |s.left| && !s.red[s.left[p]] && IsRed(s, s.left[s.left[p]])
    ensures FarRedR(s, x, p)
  {
    SibFacts(s, x, p);
    var w := s.left[p];
    ChildNarrower(s, w);
    LinksInRange(s, w);
    var r := s.left[w];
    LinksInRange(s, r);
    if s.parent[p] != -1 {
      assert NodeRedOk(s, s.parent[p], x);
    }
  }

  ghost predicate FarRedRStep(s: State, t: State, p: int)
  {
    WF(s) && 0 <= p < |s.left| && CanRotR(s, p) && 0 <= s.left[s.left[p]] < |s.left| &&
    WF(t) && |t.left| == |s.left| && t.sq == s.sq && t.pos == s.pos &&
    var w := s.left[p];
    t.red == s.red[w := s.red[p]][p := false][s.left[w] := false] &&
    t.bh == s.bh[p := s.bh[p] - 1][w := s.bh[p]] && KidsAfterR(s, t, p)
  }

  lemma FarRedRBalancedAtP(s: State, t: State, x: int, p: int)
    requires FarRedR(s, x, p) && FarRedRStep(s, t, p)
    ensures NodeBalanced(t, p)
  {
    assert NodeBalanced(s, s.left[p]);
  }

  lemma FarRedRBalancedAtW(s: State, t: State, x: int, p: int)
    requires FarRedR(s, x, p) && FarRedRStep(s, t, p)
    ensures NodeBalanced(t, s.left[p])
  {
    assert NodeBalanced(s, s.left[p]);
  }

  lemma FarRedRBalancedAtTop(s: State, t: State, x: int, p: int)
    requires FarRedR(s, x, p) && FarRedRStep(s, t, p) && s.parent[p] != -1
    ensures NodeBalanced(t, s.parent[p])
  {
    var pp, w := s.parent[p], s.left[p];
    assert NodeBalanced(s, pp);
    var o := Sib(s, p, pp);
    if o != -1 {
      assert s.parent[o] == pp;
    }
    FarRedRRecoloured(s, t, p);
    ReplacedAt(s, t, w, p, s.left[w], pp, p, w);
  }

  lemma FarRedRBalancedAtR(s: State, t: State, x: int, p: int)
    requires FarRedR(s, x, p) && FarRedRStep(s, t, p)
    ensures NodeBalanced(t, s.left[s.left[p]])
  {
    var r := s.left[s.left[p]];
    assert NodeBalanced(s, r);
  }

  lemma FarRedRBalancedElse(s: State, t: State, x: int, p: int, m: int)
    requires FarRedR(s, x, p) && FarRedRStep(s, t, p) && Live(s, m)
    requires m != p && m != s.left[p] && m != s.parent[p] && m != s.left[s.left[p]]
    ensures NodeBalanced(t, m)
  {
    var w := s.left[p];
    LinksInRange(s, m);
    assert NodeBalanced(s, m);
    FarRedRRecoloured(s, t, p);
    KeptAt(s, t, w, p, s.left[w], m, x, -1);
  }

  lemma FarRedRBalancedAt(s: State, t: State, x: int, p: int, m: int)
    requires FarRedR(s, x, p) && FarRedRStep(s, t, p) && Live(s, m)
    ensures NodeBalanced(t, m)
  {
    if m == p {
      FarRedRBalancedAtP(s, t, x, p);
    } else if m == s.left[p] {
      FarRedRBalancedAtW(s, t, x, p);
    } else if m == s.parent[p] {
      FarRedRBalancedAtTop(s, t, x, p);
    } else if m == s.left[s.left[p]] {
      FarRedRBalancedAtR(s, t, x, p);
    } else {
      FarRedRBalancedElse(s, t, x, p, m);
    }
  }

  lemma FarRedRRedAtTop(s: State, t: State, x: int, p: int)
    requires FarRedR(s, x, p) && FarRedRStep(s, t, p) && s.parent[p] != -1
    ensures NodeRedOk(t, s.parent[p], -1)
  {
    assert NodeRedOk(s, s.parent[p], x);
  }

  lemma FarRedRRedElse(s: State, t: State, x: int, p: int, m: int)
    requires FarRedR(s, x, p) && FarRedRStep(s, t, p) && Live(s, m)
    requires m != p && m != s.left[p] && m != s.parent[p] && m != s.left[s.left[p]] && m != x
    ensures NodeRedOk(t, m, -1)
  {
    var w := s.left[p];
    LinksInRange(s, m);
    assert NodeRedOk(s, m, x);
    FarRedRRecoloured(s, t, p);
    KeptAt(s, t, w, p, s.left[w], m, x, -1);
  }

  lemma FarRedRRecoloured(s: State, t: State, p: int)
    requires FarRedRStep(s, t, p)
    ensures var w := s.left[p]; Recoloured(s, t, w, p, s.left[w])
  {
  }

  lemma FarRedRRedAt(s: State, t: State, x: int, p: int, m: int)
    requires FarRedR(s, x, p) && FarRedRStep(s, t, p) && Live(s, m)
    ensures NodeRedOk(t, m, -1)
  {
    var w := s.left[p];
    if m == s.parent[p] {
      FarRedRRedAtTop(s, t, x, p);
    } else if m != p && m != w && m != s.left[w] && m != x {
      FarRedRRedElse(s, t, x, p, m);
    }
  }

  lemma FarRedRRoot(s: State, t: State, x: int, p: int)
    requires FarRedR(s, x, p) && FarRedRStep(s, t, p)
    ensures RootBlack(t)
  {
    assert s.parent[s.root] == -1;
  }

  lemma FarRedRSetup(s: State, x: int, p: int)
    requires Struct(s) && 0 <= p < |s.left| && Live(s, p) && 0 <= s.left[p] < |s.left|
    requires 0 <= s.left[s.left[p]] < |s.left|
    ensures var w := s.left[p]; CanRotR(Settle(s, p, w, s.left[w]), p)
    ensures var w := s.left[p]; var t := RotR(Settle(s, p, w, s.left[w]), p);
      Struct(t) && FarRedRStep(s, t, p) && t.count == s.count
  {
    var w := s.left[p];
    var u := Settle(s, p, w, s.left[w]);
    ShapeKept(s, u);
    RotRStruct(u, p);
    RotRKids(u, p);
  }

  lemma FarRedRColours(s: State, t: State, x: int, p: int)
    requires FarRedR(s, x, p) && FarRedRStep(s, t, p) && Struct(t)
    ensures Inv(t)
  {
    forall m | Live(t, m)
      ensures NodeBalanced(t, m) && NodeRedOk(t, m, -1)
    {
      FarRedRBalancedAt(s, t, x, p, m);
      FarRedRRedAt(s, t, x, p, m);
    }
    FarRedRRoot(s, t, x, p);
  }

  /** Lines 282-286: the sibling w takes p's colour, p and w's red far
      child turn black, and p is rotated down to the right: the paths
      through x gain the black p and the tree is a red-black tree again. */
  lemma RotateFarR(s: State, x: int, p: int)
    requires DelInv(s, x, p) && x != s.root && !IsRed(s, x) && 0 <= p < |s.left| && s.left[p] != x
    requires 0 <= s.left[p] < |s.left| && !s.red[s.left[p]] && IsRed(s, s.left[s.left[p]])
    ensures var w := s.left[p]; 0 <= s.left[w] < |s.left| && CanRotR(Settle(s, p, w, s.left[w]), p)
    ensures var w := s.left[p]; var t := RotR(Settle(s, p, w, s.left[w]), p);
      Inv(t) && t.sq == s.sq && t.count == s.count
  {
    FarRedRFacts(s, x, p);
    FarRedRSetup(s, x, p);
    var w := s.left[p];
    FarRedRColours(s, RotR(Settle(s, p, w, s.left[w]), p), x, p);
  }

}
