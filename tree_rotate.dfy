/** The rotations of the arena red-black tree (RedBlackTree.cs:313-368),
    as transitions of TreeState.State, and the proof that they keep the
    tree's shape invariant and its in-order sequence. */
module TreeRotate {
  import opened TreeState

  /** The links a rotation at p reads are in range. */
  ghost predicate CanRotL(s: State, p: int)
  {
    WF(s) && 0 <= p < |s.left| && 0 <= s.right[p] < |s.left| &&
    Ref(s, s.parent[p]) && Ref(s, s.left[s.right[p]])
  }

  ghost predicate CanRotR(s: State, p: int)
  {
    WF(s) && 0 <= p < |s.left| && 0 <= s.left[p] < |s.left| &&
    Ref(s, s.parent[p]) && Ref(s, s.right[s.left[p]])
  }

  /** RotateLeft at p: its right child q takes its place, p becomes q's left
      child and q's old left subtree becomes p's right subtree. The ghost
      intervals of p and q follow. */
  ghost function RotL(s: State, p: int): State
    requires CanRotL(s, p)
  {
    var q := s.right[p];
    var par := s.parent[p];
    var left1 := if par > -1 && s.left[par] == p then s.left[par := q] else s.left;
    var right1 := if par > -1 && s.left[par] != p then s.right[par := q] else s.right;
    var root1 := if par > -1 then s.root else q;
    var parent1 := s.parent[q := par][p := q];
    var b := left1[q];
    var right2 := right1[p := b];
    var parent2 := if b > -1 then parent1[b := p] else parent1;
    var left2 := left1[q := p];
    s.(left := left2, right := right2, parent := parent2, root := root1,
       lo := s.lo[q := s.lo[p]], hi := s.hi[q := s.hi[p]][p := s.pos[q] - 1])
  }

  /** RotateRight at p: the mirror image. */
  ghost function RotR(s: State, p: int): State
    requires CanRotR(s, p)
  {
    var q := s.left[p];
    var par := s.parent[p];
    var left1 := if par > -1 && s.left[par] == p then s.left[par := q] else s.left;
    var right1 := if par > -1 && s.left[par] != p then s.right[par := q] else s.right;
    var root1 := if par > -1 then s.root else q;
    var parent1 := s.parent[q := par][p := q];
    var b := right1[q];
    var left2 := left1[p := b];
    var parent2 := if b > -1 then parent1[b := p] else parent1;
    var right2 := right1[q := p];
    s.(left := left2, right := right2, parent := parent2, root := root1,
       lo := s.lo[q := s.lo[p]][p := s.pos[q] + 1], hi := s.hi[q := s.hi[p]])
  }

  /** A left rotation is possible wherever p has a right child. */
  lemma CanRotateLeft(s: State, p: int)
    requires Struct(s) && Live(s, p) && s.right[p] != -1
    ensures CanRotL(s, p)
  {
    LinksInRange(s, p);
    LinksInRange(s, s.right[p]);
  }

  lemma CanRotateRight(s: State, p: int)
    requires Struct(s) && Live(s, p) && s.left[p] != -1
    ensures CanRotR(s, p)
  {
    LinksInRange(s, p);
    LinksInRange(s, s.left[p]);
  }

  /** The links around a left rotation at p, as Struct provides them: p,
      its right child q, its parent par and q's left child b. */
  ghost predicate RotLReady(s: State, p: int)
  {
    CanRotL(s, p) && Live(s, p) && NodeLinked(s, p) &&
    var q, par := s.right[p], s.parent[p];
    var b := s.left[q];
    Live(s, q) && NodeLinked(s, q) &&
    (par != -1 ==> Live(s, par) && NodeLinked(s, par)) &&
    RootOk(s) &&
    (b != -1 ==> Live(s, b) && NodeLinked(s, b))
  }

  lemma RotLIsReady(s: State, p: int)
    requires Struct(s) && Live(s, p) && s.right[p] != -1
    ensures RotLReady(s, p)
  {
    LinksInRange(s, p);
    LinksInRange(s, s.right[p]);
  }

  /** What the left rotation writes, slot by slot. */
  lemma RotLFields(s: State, p: int)
    requires RotLReady(s, p)
    ensures var t, q, par := RotL(s, p), s.right[p], s.parent[p];
      var b := s.left[q];
      WF(t) && SameList(s, t) && |t.left| == |s.left| &&
      t.left[p] == s.left[p] && t.right[p] == b && t.parent[p] == q &&
      t.left[q] == p && t.right[q] == s.right[q] && t.parent[q] == par &&
      t.lo[p] == s.lo[p] && t.hi[p] == s.pos[q] - 1 && t.lo[q] == s.lo[p] && t.hi[q] == s.hi[p] &&
      (par != -1 ==> t.root == s.root && t.parent[par] == s.parent[par]) &&
      (par != -1 ==> t.lo[par] == s.lo[par] && t.hi[par] == s.hi[par]) &&
      (par != -1 && s.left[par] == p ==> t.left[par] == q && t.right[par] == s.right[par]) &&
      (par != -1 && s.left[par] != p ==> t.right[par] == q && t.left[par] == s.left[par]) &&
      (par == -1 ==> t.root == q) &&
      (b != -1 ==> t.parent[b] == p && t.left[b] == s.left[b] && t.right[b] == s.right[b]) &&
      (b != -1 ==> t.lo[b] == s.lo[b] && t.hi[b] == s.hi[b])
  {
  }

  /** Slots other than p, q, par and b keep their links. */
  lemma RotLElsewhere(s: State, p: int, m: int)
    requires RotLReady(s, p) && 0 <= m < |s.left|
    requires m != p && m != s.right[p] && m != s.parent[p] && m != s.left[s.right[p]]
    ensures var t := RotL(s, p);
      t.left[m] == s.left[m] && t.right[m] == s.right[m] && t.parent[m] == s.parent[m] &&
      t.lo[m] == s.lo[m] && t.hi[m] == s.hi[m]
  {
  }

  lemma RotLAtP(s: State, p: int)
    requires RotLReady(s, p)
    ensures WF(RotL(s, p)) && NodeLinked(RotL(s, p), p)
  {
    RotLFields(s, p);
    var l := s.left[p];
    if l != -1 {
      RotLElsewhere(s, p, l);
    }
  }

  lemma RotLAtQ(s: State, p: int)
    requires RotLReady(s, p)
    ensures WF(RotL(s, p)) && NodeLinked(RotL(s, p), s.right[p])
  {
    RotLFields(s, p);
    var r := s.right[s.right[p]];
    if r != -1 {
      RotLElsewhere(s, p, r);
    }
  }

  lemma RotLAtParent(s: State, p: int)
    requires RotLReady(s, p) && s.parent[p] != -1
    ensures WF(RotL(s, p)) && NodeLinked(RotL(s, p), s.parent[p])
  {
    RotLFields(s, p);
    RotLAtParentLeft(s, p);
    RotLAtParentRight(s, p);
    RotLAtParentUp(s, p);
  }

  lemma RotLAtParentLeft(s: State, p: int)
    requires RotLReady(s, p) && s.parent[p] != -1
    ensures WF(RotL(s, p)) && LeftLinked(RotL(s, p), s.parent[p])
  {
    RotLFields(s, p);
    var l := s.left[s.parent[p]];
    if l != -1 && l != p {
      RotLElsewhere(s, p, l);
    }
  }

  lemma RotLAtParentRight(s: State, p: int)
    requires RotLReady(s, p) && s.parent[p] != -1
    ensures WF(RotL(s, p)) && RightLinked(RotL(s, p), s.parent[p])
  {
    RotLFields(s, p);
    var r := s.right[s.parent[p]];
    if r != -1 && r != p {
      RotLElsewhere(s, p, r);
    }
  }

  lemma RotLAtParentUp(s: State, p: int)
    requires RotLReady(s, p) && s.parent[p] != -1
    ensures WF(RotL(s, p)) && UpLinked(RotL(s, p), s.parent[p])
  {
    RotLFields(s, p);
    var g := s.parent[s.parent[p]];
    if g != -1 {
      RotLElsewhere(s, p, g);
    }
  }

  lemma RotLAtB(s: State, p: int)
    requires RotLReady(s, p) && s.left[s.right[p]] != -1
    ensures WF(RotL(s, p)) && NodeLinked(RotL(s, p), s.left[s.right[p]])
  {
    RotLFields(s, p);
    var b := s.left[s.right[p]];
    var l, r := s.left[b], s.right[b];
    if l != -1 {
      RotLElsewhere(s, p, l);
    }
    if r != -1 {
      RotLElsewhere(s, p, r);
    }
  }

  lemma RotLOther(s: State, p: int, m: int)
    requires RotLReady(s, p) && Live(s, m) && NodeLinked(s, m)
    requires m != p && m != s.right[p] && m != s.parent[p] && m != s.left[s.right[p]]
    ensures WF(RotL(s, p)) && NodeLinked(RotL(s, p), m)
  {
    RotLFields(s, p);
    RotLElsewhere(s, p, m);
    RotLOtherLeft(s, p, m);
    RotLOtherRight(s, p, m);
    RotLOtherUp(s, p, m);
  }

  lemma RotLOtherLeft(s: State, p: int, m: int)
    requires RotLReady(s, p) && Live(s, m) && NodeLinked(s, m)
    requires m != p && m != s.right[p] && m != s.parent[p] && m != s.left[s.right[p]]
    ensures WF(RotL(s, p)) && LeftLinked(RotL(s, p), m)
  {
    RotLFields(s, p);
    RotLElsewhere(s, p, m);
    var l := s.left[m];
    if l != -1 && l != s.parent[p] {
      RotLElsewhere(s, p, l);
    }
  }

  lemma RotLOtherRight(s: State, p: int, m: int)
    requires RotLReady(s, p) && Live(s, m) && NodeLinked(s, m)
    requires m != p && m != s.right[p] && m != s.parent[p] && m != s.left[s.right[p]]
    ensures WF(RotL(s, p)) && RightLinked(RotL(s, p), m)
  {
    RotLFields(s, p);
    RotLElsewhere(s, p, m);
    var r := s.right[m];
    if r != -1 && r != s.parent[p] {
      RotLElsewhere(s, p, r);
    }
  }

  lemma RotLOtherUp(s: State, p: int, m: int)
    requires RotLReady(s, p) && Live(s, m) && NodeLinked(s, m)
    requires m != p && m != s.right[p] && m != s.parent[p] && m != s.left[s.right[p]]
    ensures WF(RotL(s, p)) && UpLinked(RotL(s, p), m)
  {
    RotLFields(s, p);
    RotLElsewhere(s, p, m);
    var pm := s.parent[m];
    if pm != -1 && pm != p && pm != s.right[p] && pm != s.parent[p] && pm != s.left[s.right[p]] {
      RotLElsewhere(s, p, pm);
    }
  }

  lemma RotLRoot(s: State, p: int)
    requires RotLReady(s, p)
    ensures WF(RotL(s, p)) && RootOk(RotL(s, p))
  {
    RotLFields(s, p);
    var r0 := s.root;
    if s.parent[p] != -1 && r0 != s.parent[p] {
      RotLElsewhere(s, p, r0);
    }
  }

  /** Slots outside the tree keep their empty links. */
  lemma RotLFresh(s: State, p: int)
    requires Struct(s) && RotLReady(s, p)
    ensures var t := RotL(s, p);
      WF(t) && forall m :: t.count <= m < |t.left| ==> t.left[m] == -1 && t.right[m] == -1
  {
    RotLFields(s, p);
    var t := RotL(s, p);
    forall m | t.count <= m < |t.left|
      ensures t.left[m] == -1 && t.right[m] == -1
    {
      assert s.left[m] == -1 && s.right[m] == -1;
      RotLElsewhere(s, p, m);
    }
  }

  /** A left rotation keeps the tree's shape invariant and its in-order
      sequence, and moves q = right[p] into p's place with p as q's left
      child. */
  lemma RotLStruct(s: State, p: int)
    requires Struct(s) && Live(s, p) && s.right[p] != -1
    ensures CanRotL(s, p)
    ensures var t, q := RotL(s, p), s.right[p];
      Struct(t) && SameList(s, t) && t.left[q] == p && t.parent[p] == q &&
      t.parent[q] == s.parent[p] && t.right[p] == s.left[q] && t.left[p] == s.left[p] && t.right[q] == s.right[q]
  {
    RotLIsReady(s, p);
    RotLFields(s, p);
    var t := RotL(s, p);
    RotLFresh(s, p);
    ListPartsKept(s, t);
    RotLRoot(s, p);
    forall m | Live(t, m)
      ensures NodeLinked(t, m)
    {
      RotLAtNode(s, p, m);
    }
  }

  lemma RotLAtNode(s: State, p: int, m: int)
    requires Struct(s) && RotLReady(s, p) && Live(s, m)
    ensures WF(RotL(s, p)) && NodeLinked(RotL(s, p), m)
  {
    var q, par := s.right[p], s.parent[p];
    if m == p {
      RotLAtP(s, p);
    } else if m == q {
      RotLAtQ(s, p);
    } else if m == par {
      RotLAtParent(s, p);
    } else if m == s.left[q] {
      RotLAtB(s, p);
    } else {
      assert NodeLinked(s, m);
      RotLOther(s, p, m);
    }
  }

  // Right rotation: the mirror image of the left one.

  /** The links around a right rotation at p, as Struct provides them: p,
      its left child q, its parent par and q's right child b. */
  ghost predicate RotRReady(s: State, p: int)
  {
    CanRotR(s, p) && Live(s, p) && NodeLinked(s, p) &&
    var q, par := s.left[p], s.parent[p];
    var b := s.right[q];
    Live(s, q) && NodeLinked(s, q) &&
    (par != -1 ==> Live(s, par) && NodeLinked(s, par)) &&
    RootOk(s) &&
    (b != -1 ==> Live(s, b) && NodeLinked(s, b))
  }

  lemma RotRIsReady(s: State, p: int)
    requires Struct(s) && Live(s, p) && s.left[p] != -1
    ensures RotRReady(s, p)
  {
    LinksInRange(s, p);
    LinksInRange(s, s.left[p]);
  }

  /** What the right rotation writes, slot by slot. */
  lemma RotRFields(s: State, p: int)
    requires RotRReady(s, p)
    ensures var t, q, par := RotR(s, p), s.left[p], s.parent[p];
      var b := s.right[q];
      WF(t) && SameList(s, t) && |t.right| == |s.right| &&
      t.right[p] == s.right[p] && t.left[p] == b && t.parent[p] == q &&
      t.right[q] == p && t.left[q] == s.left[q] && t.parent[q] == par &&
      t.hi[p] == s.hi[p] && t.lo[p] == s.pos[q] + 1 && t.hi[q] == s.hi[p] && t.lo[q] == s.lo[p] &&
      (par != -1 ==> t.root == s.root && t.parent[par] == s.parent[par]) &&
      (par != -1 ==> t.hi[par] == s.hi[par] && t.lo[par] == s.lo[par]) &&
      (par != -1 && s.right[par] == p ==> t.right[par] == q && t.left[par] == s.left[par]) &&
      (par != -1 && s.right[par] != p ==> t.left[par] == q && t.right[par] == s.right[par]) &&
      (par == -1 ==> t.root == q) &&
      (b != -1 ==> t.parent[b] == p && t.right[b] == s.right[b] && t.left[b] == s.left[b]) &&
      (b != -1 ==> t.hi[b] == s.hi[b] && t.lo[b] == s.lo[b])
  {
  }

  /** Slots other than p, q, par and b keep their links. */
  lemma RotRElsewhere(s: State, p: int, m: int)
    requires RotRReady(s, p) && 0 <= m < |s.right|
    requires m != p && m != s.left[p] && m != s.parent[p] && m != s.right[s.left[p]]
    ensures var t := RotR(s, p);
      t.right[m] == s.right[m] && t.left[m] == s.left[m] && t.parent[m] == s.parent[m] &&
      t.hi[m] == s.hi[m] && t.lo[m] == s.lo[m]
  {
  }

  lemma RotRAtP(s: State, p: int)
    requires RotRReady(s, p)
    ensures WF(RotR(s, p)) && NodeLinked(RotR(s, p), p)
  {
    RotRFields(s, p);
    var l := s.right[p];
    if l != -1 {
      RotRElsewhere(s, p, l);
    }
  }

  lemma RotRAtQ(s: State, p: int)
    requires RotRReady(s, p)
    ensures WF(RotR(s, p)) && NodeLinked(RotR(s, p), s.left[p])
  {
    RotRFields(s, p);
    var r := s.left[s.left[p]];
    if r != -1 {
      RotRElsewhere(s, p, r);
    }
  }

  lemma RotRAtParent(s: State, p: int)
    requires RotRReady(s, p) && s.parent[p] != -1
    ensures WF(RotR(s, p)) && NodeLinked(RotR(s, p), s.parent[p])
  {
    RotRFields(s, p);
    RotRAtParentRight(s, p);
    RotRAtParentLeft(s, p);
    RotRAtParentUp(s, p);
  }

  lemma RotRAtParentRight(s: State, p: int)
    requires RotRReady(s, p) && s.parent[p] != -1
    ensures WF(RotR(s, p)) && RightLinked(RotR(s, p), s.parent[p])
  {
    RotRFields(s, p);
    var l := s.right[s.parent[p]];
    if l != -1 && l != p {
      RotRElsewhere(s, p, l);
    }
  }

  lemma RotRAtParentLeft(s: State, p: int)
    requires RotRReady(s, p) && s.parent[p] != -1
    ensures WF(RotR(s, p)) && LeftLinked(RotR(s, p), s.parent[p])
  {
    RotRFields(s, p);
    var r := s.left[s.parent[p]];
    if r != -1 && r != p {
      RotRElsewhere(s, p, r);
    }
  }

  lemma RotRAtParentUp(s: State, p: int)
    requires RotRReady(s, p) && s.parent[p] != -1
    ensures WF(RotR(s, p)) && UpLinked(RotR(s, p), s.parent[p])
  {
    RotRFields(s, p);
    var g := s.parent[s.parent[p]];
    if g != -1 {
      RotRElsewhere(s, p, g);
    }
  }

  lemma RotRAtB(s: State, p: int)
    requires RotRReady(s, p) && s.right[s.left[p]] != -1
    ensures WF(RotR(s, p)) && NodeLinked(RotR(s, p), s.right[s.left[p]])
  {
    RotRFields(s, p);
    var b := s.right[s.left[p]];
    var l, r := s.right[b], s.left[b];
    if l != -1 {
      RotRElsewhere(s, p, l);
    }
    if r != -1 {
      RotRElsewhere(s, p, r);
    }
  }

  lemma RotROther(s: State, p: int, m: int)
    requires RotRReady(s, p) && Live(s, m) && NodeLinked(s, m)
    requires m != p && m != s.left[p] && m != s.parent[p] && m != s.right[s.left[p]]
    ensures WF(RotR(s, p)) && NodeLinked(RotR(s, p), m)
  {
    RotRFields(s, p);
    RotRElsewhere(s, p, m);
    RotROtherRight(s, p, m);
    RotROtherLeft(s, p, m);
    RotROtherUp(s, p, m);
  }

  lemma RotROtherRight(s: State, p: int, m: int)
    requires RotRReady(s, p) && Live(s, m) && NodeLinked(s, m)
    requires m != p && m != s.left[p] && m != s.parent[p] && m != s.right[s.left[p]]
    ensures WF(RotR(s, p)) && RightLinked(RotR(s, p), m)
  {
    RotRFields(s, p);
    RotRElsewhere(s, p, m);
    var l := s.right[m];
    if l != -1 && l != s.parent[p] {
      RotRElsewhere(s, p, l);
    }
  }

  lemma RotROtherLeft(s: State, p: int, m: int)
    requires RotRReady(s, p) && Live(s, m) && NodeLinked(s, m)
    requires m != p && m != s.left[p] && m != s.parent[p] && m != s.right[s.left[p]]
    ensures WF(RotR(s, p)) && LeftLinked(RotR(s, p), m)
  {
    RotRFields(s, p);
    RotRElsewhere(s, p, m);
    var r := s.left[m];
    if r != -1 && r != s.parent[p] {
      RotRElsewhere(s, p, r);
    }
  }

  lemma RotROtherUp(s: State, p: int, m: int)
    requires RotRReady(s, p) && Live(s, m) && NodeLinked(s, m)
    requires m != p && m != s.left[p] && m != s.parent[p] && m != s.right[s.left[p]]
    ensures WF(RotR(s, p)) && UpLinked(RotR(s, p), m)
  {
    RotRFields(s, p);
    RotRElsewhere(s, p, m);
    var pm := s.parent[m];
    if pm != -1 && pm != p && pm != s.left[p] && pm != s.parent[p] && pm != s.right[s.left[p]] {
      RotRElsewhere(s, p, pm);
    }
  }

  lemma RotRRoot(s: State, p: int)
    requires RotRReady(s, p)
    ensures WF(RotR(s, p)) && RootOk(RotR(s, p))
  {
    RotRFields(s, p);
    var r0 := s.root;
    if s.parent[p] != -1 && r0 != s.parent[p] {
      RotRElsewhere(s, p, r0);
    }
  }

  /** Slots outside the tree keep their empty links. */
  lemma RotRFresh(s: State, p: int)
    requires Struct(s) && RotRReady(s, p)
    ensures var t := RotR(s, p);
      WF(t) && forall m :: t.count <= m < |t.right| ==> t.right[m] == -1 && t.left[m] == -1
  {
    RotRFields(s, p);
    var t := RotR(s, p);
    forall m | t.count <= m < |t.right|
      ensures t.right[m] == -1 && t.left[m] == -1
    {
      assert s.right[m] == -1 && s.left[m] == -1;
      RotRElsewhere(s, p, m);
    }
  }

  /** A right rotation keeps the tree's shape invariant and its in-order
      sequence, and moves q = left[p] into p's place with p as q's right
      child. */
  lemma RotRStruct(s: State, p: int)
    requires Struct(s) && Live(s, p) && s.left[p] != -1
    ensures CanRotR(s, p)
    ensures var t, q := RotR(s, p), s.left[p];
      Struct(t) && SameList(s, t) && t.right[q] == p && t.parent[p] == q &&
      t.parent[q] == s.parent[p] && t.left[p] == s.right[q] && t.right[p] == s.right[p] && t.left[q] == s.left[q]
  {
    RotRIsReady(s, p);
    RotRFields(s, p);
    var t := RotR(s, p);
    RotRFresh(s, p);
    ListPartsKept(s, t);
    RotRRoot(s, p);
    forall m | Live(t, m)
      ensures NodeLinked(t, m)
    {
      RotRAtNode(s, p, m);
    }
  }

  lemma RotRAtNode(s: State, p: int, m: int)
    requires Struct(s) && RotRReady(s, p) && Live(s, m)
    ensures WF(RotR(s, p)) && NodeLinked(RotR(s, p), m)
  {
    var q, par := s.left[p], s.parent[p];
    if m == p {
      RotRAtP(s, p);
    } else if m == q {
      RotRAtQ(s, p);
    } else if m == par {
      RotRAtParent(s, p);
    } else if m == s.right[q] {
      RotRAtB(s, p);
    } else {
      assert NodeLinked(s, m);
      RotROther(s, p, m);
    }
  }

  // ---------------------------------------------------------------------
  // The child links after a rotation, for the colour arguments

  /** After a left rotation at p with right child q: q has p as its left
      child, p has q's old left child as its right child, q replaces p
      below p's old parent, and no other slot's children changed. */
  ghost predicate KidsAfterL(s: State, t: State, p: int)
    requires CanRotL(s, p) && WF(t) && |t.left| == |s.left|
  {
    var q, par := s.right[p], s.parent[p];
    t.left[p] == s.left[p] && t.right[p] == s.left[q] && t.left[q] == p && t.right[q] == s.right[q] &&
    (par != -1 && s.left[par] == p ==> t.left[par] == q && t.right[par] == s.right[par]) &&
    (par != -1 && s.left[par] != p ==> t.right[par] == q && t.left[par] == s.left[par]) &&
    (par == -1 ==> t.root == q) && (par != -1 ==> t.root == s.root) &&
    forall m :: 0 <= m < |s.left| && m != p && m != q && m != par ==>
      t.left[m] == s.left[m] && t.right[m] == s.right[m]
  }

  lemma RotLKids(s: State, p: int)
    requires Struct(s) && Live(s, p) && s.right[p] != -1
    ensures CanRotL(s, p)
    ensures var t := RotL(s, p);
      WF(t) && SameList(s, t) && |t.left| == |s.left| && KidsAfterL(s, t, p)
  {
    RotLIsReady(s, p);
    RotLFields(s, p);
    var t, q := RotL(s, p), s.right[p];
    forall m | 0 <= m < |s.left| && m != p && m != q && m != s.parent[p]
      ensures t.left[m] == s.left[m] && t.right[m] == s.right[m]
    {
      if m != s.left[q] {
        RotLElsewhere(s, p, m);
      }
    }
  }

  /** The mirror image: after a right rotation at p with left child q. */
  ghost predicate KidsAfterR(s: State, t: State, p: int)
    requires CanRotR(s, p) && WF(t) && |t.left| == |s.left|
  {
    var q, par := s.left[p], s.parent[p];
    t.right[p] == s.right[p] && t.left[p] == s.right[q] && t.right[q] == p && t.left[q] == s.left[q] &&
    (par != -1 && s.right[par] == p ==> t.right[par] == q && t.left[par] == s.left[par]) &&
    (par != -1 && s.right[par] != p ==> t.left[par] == q && t.right[par] == s.right[par]) &&
    (par == -1 ==> t.root == q) && (par != -1 ==> t.root == s.root) &&
    forall m :: 0 <= m < |s.left| && m != p && m != q && m != par ==>
      t.left[m] == s.left[m] && t.right[m] == s.right[m]
  }

  lemma RotRKids(s: State, p: int)
    requires Struct(s) && Live(s, p) && s.left[p] != -1
    ensures CanRotR(s, p)
    ensures var t := RotR(s, p);
      WF(t) && SameList(s, t) && |t.left| == |s.left| && KidsAfterR(s, t, p)
  {
    RotRIsReady(s, p);
    RotRFields(s, p);
    var t, q := RotR(s, p), s.left[p];
    forall m | 0 <= m < |s.left| && m != p && m != q && m != s.parent[p]
      ensures t.left[m] == s.left[m] && t.right[m] == s.right[m]
    {
      if m != s.right[q] {
        RotRElsewhere(s, p, m);
      }
    }
  }
}
