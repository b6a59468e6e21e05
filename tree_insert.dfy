/** Linking a new node into the arena red-black tree (RedBlackTree.cs:21-69)
    as transitions of TreeState.State: the new slot x = count goes in just
    after a given node, or first, and the ghost in-order sequence gets x at
    the matching place. */
module TreeInsert {
  import opened TreeState
  import opened TreeGrow

  /** Lines 30-34: x is threaded in between node and its successor. */
  ghost function ThreadAfter(s: State, node: int, x: int): State
    requires WF(s) && 0 <= node < |s.left| && 0 <= x < |s.left| && Ref(s, s.next[node])
  {
    var nx := s.next[node];
    var prev1 := s.previous[x := node];
    var next1 := s.next[x := nx];
    var prev2 := if nx > -1 then prev1[nx := x] else prev1;
    s.(previous := prev2, next := next1[node := x])
  }

  /** Lines 54-55: x is threaded in before the first node m. */
  ghost function ThreadFirst(s: State, m: int, x: int): State
    requires WF(s) && 0 <= m < |s.left| && 0 <= x < |s.left|
  {
    s.(next := s.next[x := m], previous := s.previous[m := x])
  }

  /** Lines 68-69: x's parent link, and x starts red. */
  ghost function Claim(s: State, x: int, par: int): State
    requires WF(s) && 0 <= x < |s.left|
  {
    s.(parent := s.parent[x := par], red := s.red[x := true])
  }

  /** Insertion after a node without right child: x becomes its right child
      (lines 30-34, 44, 68-69). */
  ghost function InsRight(s: State, node: int): State
    requires WF(s) && 0 <= node < |s.left| && s.count < |s.left|
    requires Ref(s, s.next[node]) && 0 <= s.pos[node] < |s.sq|
  {
    var x := s.count;
    var t := ThreadAfter(s, node, x);
    var k := s.pos[node] + 1;
    Grow(Claim(t.(right := t.right[node := x]), x, node), x, k, k, k - 1)
  }

  /** Insertion as the left child of m, which has no left child: m is the
      first node of node's right subtree (lines 30-34, 39-40) or, with
      node = -1, the first node of the tree (lines 52-56). */
  ghost function InsLeft(s: State, node: int, m: int): State
    requires WF(s) && Ref(s, node) && 0 <= m < |s.left| && s.count < |s.left|
    requires 0 <= s.pos[m] < |s.sq| && (node > -1 ==> Ref(s, s.next[node]))
  {
    var x := s.count;
    var t := if node > -1 then ThreadAfter(s, node, x) else ThreadFirst(s, m, x);
    var k := s.pos[m];
    Grow(Claim(t.(left := t.left[m := x]), x, m), x, k, k + 1, k)
  }

  /** The first insertion: x becomes the root (lines 63-64, 68-69). */
  ghost function InsRoot(s: State): State
    requires WF(s) && s.count < |s.left|
  {
    var x := s.count;
    Grow(Claim(s.(root := x), x, -1), x, 0, 0, 0)
  }

  // ---------------------------------------------------------------------
  // Insertion as a right child

  /** Slot x has no links yet. */
  ghost predicate FreshAt(s: State, x: int)
    requires WF(s) && 0 <= x < |s.left|
  {
    s.left[x] == -1 && s.right[x] == -1 && s.previous[x] == -1 && s.next[x] == -1
  }

  /** What the insertion after node (without right child) relies on. */
  ghost predicate RightReady(s: State, node: int)
  {
    WF(s) && Ordered(s) && RootOk(s) && s.count < |s.left| && FreshAt(s, s.count) &&
    Live(s, node) && NodeLinked(s, node) && NodeThreaded(s, node) &&
    s.right[node] == -1 && Ref(s, s.next[node])
  }

  lemma RightIsReady(s: State, node: int)
    requires Struct(s) && Live(s, node) && s.right[node] == -1 && s.count < |s.left|
    ensures RightReady(s, node)
  {
    assert NodeLinked(s, node);
    assert NodeThreaded(s, node);
    var i := s.pos[node];
    if i + 1 < |s.sq| {
      assert 0 <= s.sq[i + 1] < s.count;
    }
  }

  /** The links InsRight writes. */
  ghost predicate RightLinks(s: State, t: State, node: int)
    requires RightReady(s, node)
  {
    var x, k := s.count, s.pos[node] + 1;
    Grown(s, t, x, k, k, k - 1) && t.root == s.root &&
    t.left == s.left && t.right == s.right[node := x] && t.parent == s.parent[x := node]
  }

  /** What InsRight writes, as a relation between the states before and
      after. */
  ghost predicate RightFacts(s: State, t: State, node: int)
    requires RightReady(s, node)
  {
    var nx := s.next[node];
    RightLinks(s, t, node) && t.red == s.red[s.count := true] &&
    t.previous[s.count] == node && t.next[s.count] == nx && t.next[node] == s.count && t.previous[node] == s.previous[node] &&
    (nx > -1 ==> t.previous[nx] == s.count && t.next[nx] == s.next[nx]) &&
    forall m :: 0 <= m < |s.left| && m != s.count && m != node && m != nx ==>
      t.previous[m] == s.previous[m] && t.next[m] == s.next[m]
  }

  lemma InsRightFields(s: State, node: int)
    requires RightReady(s, node)
    ensures RightFacts(s, InsRight(s, node), node)
  {
  }

  lemma InsRightLinkedX(s: State, t: State, node: int)
    requires RightReady(s, node) && RightFacts(s, t, node)
    ensures Live(t, s.count) && NodeLinked(t, s.count)
  {
    var x, k := s.count, s.pos[node] + 1;
    GrownLive(s, t, x, k, k, k - 1, node);
  }

  lemma InsRightLinkedNode(s: State, t: State, node: int)
    requires RightReady(s, node) && RightFacts(s, t, node)
    ensures Live(t, node) && NodeLinked(t, node)
  {
    var x, k := s.count, s.pos[node] + 1;
    GrownLive(s, t, x, k, k, k - 1, node);
    var l, pm := s.left[node], s.parent[node];
    if l != -1 {
      GrownLive(s, t, x, k, k, k - 1, l);
    }
    if pm != -1 {
      GrownLive(s, t, x, k, k, k - 1, pm);
    }
  }

  lemma InsRightOtherLeft(s: State, t: State, node: int, m: int)
    requires RightReady(s, node) && RightLinks(s, t, node)
    requires Live(s, m) && NodeLinked(s, m) && m != node
    ensures LeftLinked(t, m)
  {
    var x, k := s.count, s.pos[node] + 1;
    assert s.sq[s.pos[m]] == m && s.sq[s.pos[node]] == node;
    assert ShiftFits(s, m, k, k, k - 1);
    assert Grown(s, t, x, k, k, k - 1);
    GrownOtherLeft(s, t, x, k, k, k - 1, m);
  }

  lemma InsRightOtherRight(s: State, t: State, node: int, m: int)
    requires RightReady(s, node) && RightLinks(s, t, node)
    requires Live(s, m) && NodeLinked(s, m) && m != node
    ensures RightLinked(t, m)
  {
    var x, k := s.count, s.pos[node] + 1;
    assert s.sq[s.pos[m]] == m && s.sq[s.pos[node]] == node;
    assert ShiftFits(s, m, k, k, k - 1);
    assert Grown(s, t, x, k, k, k - 1);
    GrownOtherRight(s, t, x, k, k, k - 1, m);
  }

  lemma InsRightOtherUp(s: State, t: State, node: int, m: int)
    requires RightReady(s, node) && RightLinks(s, t, node)
    requires Live(s, m) && NodeLinked(s, m) && m != node
    ensures UpLinked(t, m)
  {
    var x, k, pm := s.count, s.pos[node] + 1, s.parent[m];
    assert m != x;
    assert t.parent[m] == pm;
    assert pm != -1 && s.right[pm] == m ==> t.right[pm] == m;
    GrownOtherUp(s, t, x, k, k, k - 1, m);
  }

  lemma InsRightLinkedOther(s: State, t: State, node: int, m: int)
    requires RightReady(s, node) && RightLinks(s, t, node)
    requires Live(s, m) && NodeLinked(s, m) && m != node
    ensures Live(t, m) && NodeLinked(t, m)
  {
    var x, k := s.count, s.pos[node] + 1;
    assert s.sq[s.pos[m]] == m && s.sq[s.pos[node]] == node;
    assert ShiftFits(s, m, k, k, k - 1);
    assert Grown(s, t, x, k, k, k - 1);
    GrownBounds(s, t, x, k, k, k - 1, m);
    InsRightOtherLeft(s, t, node, m);
    InsRightOtherRight(s, t, node, m);
    InsRightOtherUp(s, t, node, m);
  }

  lemma InsRightThreadedNew(s: State, t: State, node: int, m: int)
    requires RightReady(s, node) && RightFacts(s, t, node)
    requires m == s.count || m == node
    ensures Live(t, m) && NodeThreaded(t, m)
  {
    var x, k := s.count, s.pos[node] + 1;
    GrownLive(s, t, x, k, k, k - 1, node);
    if k < |s.sq| {
      assert t.sq[k + 1] == s.sq[k];
    }
    if k > 1 {
      assert t.sq[k - 2] == s.sq[k - 2];
    }
  }

  lemma InsRightThreadedNext(s: State, t: State, node: int)
    requires RightReady(s, node) && RightFacts(s, t, node)
    requires s.next[node] != -1 && Live(s, s.next[node]) && NodeThreaded(s, s.next[node])
    ensures Live(t, s.next[node]) && NodeThreaded(t, s.next[node])
  {
    var x, k, nx := s.count, s.pos[node] + 1, s.next[node];
    GrownLive(s, t, x, k, k, k - 1, nx);
    assert s.pos[nx] == k;
    assert t.sq[k + 1] == s.sq[k];
    if k + 1 < |s.sq| {
      assert t.sq[k + 2] == s.sq[k + 1];
    }
  }

  lemma InsRightThreaded(s: State, t: State, node: int, m: int)
    requires RightReady(s, node) && RightFacts(s, t, node) && Threaded(s)
    requires Live(t, m)
    ensures NodeThreaded(t, m)
  {
    var x, k, nx := s.count, s.pos[node] + 1, s.next[node];
    GrownLive(s, t, x, k, k, k - 1, m);
    if m == x || m == node {
      InsRightThreadedNew(s, t, node, m);
    } else {
      assert NodeThreaded(s, m);
      if m == nx {
        InsRightThreadedNext(s, t, node);
      } else {
        GrownLive(s, t, x, k, k, k - 1, node);
        GrownThreadOther(s, t, x, k, k, k - 1, m);
      }
    }
  }

  lemma InsRightRoot(s: State, t: State, node: int)
    requires RightReady(s, node) && RightFacts(s, t, node)
    ensures RootOk(t)
  {
    var x, k := s.count, s.pos[node] + 1;
    GrownLive(s, t, x, k, k, k - 1, s.root);
  }

  lemma InsRightFresh(s: State, t: State, node: int)
    requires RightReady(s, node) && RightFacts(s, t, node) && Fresh(s)
    ensures Fresh(t)
  {
    assert s.next[node] < s.count by {
      assert NodeThreaded(s, node);
    }
  }

  lemma InsRightAllLinked(s: State, t: State, node: int)
    requires RightReady(s, node) && RightFacts(s, t, node) && Linked(s)
    ensures Linked(t)
  {
    var x, k := s.count, s.pos[node] + 1;
    InsRightRoot(s, t, node);
    forall m | Live(t, m)
      ensures NodeLinked(t, m)
    {
      GrownLive(s, t, x, k, k, k - 1, m);
      if m == x {
        InsRightLinkedX(s, t, node);
      } else if m == node {
        InsRightLinkedNode(s, t, node);
      } else {
        assert NodeLinked(s, m);
        InsRightLinkedOther(s, t, node, m);
      }
    }
  }

  /** The shape invariant survives the writes. */
  lemma InsRightKeeps(s: State, t: State, node: int)
    requires Struct(s) && RightReady(s, node) && RightFacts(s, t, node)
    ensures Struct(t)
  {
    var x, k := s.count, s.pos[node] + 1;
    assert Grown(s, t, x, k, k, k - 1);
    GrownOrdered(s, t, x, k, k, k - 1);
    InsRightAllLinked(s, t, node);
    InsRightFresh(s, t, node);
    forall m | Live(t, m)
      ensures NodeThreaded(t, m)
    {
      InsRightThreaded(s, t, node, m);
    }
  }

  /** Inserting after a node without right child makes the new slot that
      node's right child and puts it right after the node in the in-order
      sequence, keeping the shape invariant. */
  lemma InsRightStruct(s: State, node: int)
    requires Struct(s) && Live(s, node) && s.right[node] == -1 && s.count < |s.left|
    ensures RightReady(s, node)
    ensures var t, k := InsRight(s, node), s.pos[node] + 1;
      Struct(t) && t.sq == s.sq[..k] + [s.count] + s.sq[k..] && RightFacts(s, t, node)
  {
    RightIsReady(s, node);
    InsRightFields(s, node);
    InsRightKeeps(s, InsRight(s, node), node);
  }

  // ---------------------------------------------------------------------
  // Insertion as a left child

  /** What the insertion as m's left child relies on: m has no left child
      and node is its in-order predecessor, or -1 when m is first. */
  ghost predicate LeftReady(s: State, node: int, m: int)
  {
    WF(s) && Ordered(s) && RootOk(s) && s.count < |s.left| && FreshAt(s, s.count) &&
    Live(s, m) && NodeLinked(s, m) && NodeThreaded(s, m) && s.left[m] == -1 &&
    (node == -1 ==> s.pos[m] == 0) &&
    (node != -1 ==> Live(s, node) && NodeThreaded(s, node) && s.pos[node] + 1 == s.pos[m])
  }

  lemma LeftIsReady(s: State, node: int, m: int)
    requires Struct(s) && Live(s, m) && s.left[m] == -1 && s.count < |s.left|
    requires node == -1 ==> s.pos[m] == 0
    requires node != -1 ==> Live(s, node) && s.pos[node] + 1 == s.pos[m]
    ensures LeftReady(s, node, m)
    ensures Ref(s, node) && (node > -1 ==> Ref(s, s.next[node]) && s.next[node] == m)
  {
    assert NodeLinked(s, m);
    assert NodeThreaded(s, m);
    if node != -1 {
      assert NodeThreaded(s, node);
    }
  }

  /** The links InsLeft writes. */
  ghost predicate LeftLinks(s: State, t: State, node: int, m: int)
    requires LeftReady(s, node, m)
  {
    var x, k := s.count, s.pos[m];
    Grown(s, t, x, k, k + 1, k) && t.root == s.root &&
    t.left == s.left[m := x] && t.right == s.right && t.parent == s.parent[x := m]
  }

  /** What InsLeft writes. */
  ghost predicate LeftFacts(s: State, t: State, node: int, m: int)
    requires LeftReady(s, node, m)
  {
    var x, k := s.count, s.pos[m];
    LeftLinks(s, t, node, m) && t.red == s.red[x := true] &&
    t.previous[x] == PrevOf(s, k) && t.next[x] == m && t.previous[m] == x && t.next[m] == s.next[m] &&
    (node != -1 ==> t.next[node] == x && t.previous[node] == s.previous[node]) &&
    forall j :: 0 <= j < |s.left| && j != x && j != node && j != m ==>
      t.previous[j] == s.previous[j] && t.next[j] == s.next[j]
  }

  lemma InsLeftLinksFields(s: State, node: int, m: int)
    requires LeftReady(s, node, m) && Ref(s, node) && (node > -1 ==> Ref(s, s.next[node]) && s.next[node] == m)
    ensures LeftLinks(s, InsLeft(s, node, m), node, m)
  {
  }

  lemma InsLeftFields(s: State, node: int, m: int)
    requires LeftReady(s, node, m) && Ref(s, node) && (node > -1 ==> Ref(s, s.next[node]) && s.next[node] == m)
    ensures LeftFacts(s, InsLeft(s, node, m), node, m)
  {
    InsLeftLinksFields(s, node, m);
  }

  lemma InsLeftLinkedX(s: State, t: State, node: int, m: int)
    requires LeftReady(s, node, m) && LeftFacts(s, t, node, m)
    ensures Live(t, s.count) && NodeLinked(t, s.count)
  {
    var x, k := s.count, s.pos[m];
    GrownLive(s, t, x, k, k + 1, k, m);
  }

  lemma InsLeftLinkedM(s: State, t: State, node: int, m: int)
    requires LeftReady(s, node, m) && LeftFacts(s, t, node, m)
    ensures Live(t, m) && NodeLinked(t, m)
  {
    var x, k := s.count, s.pos[m];
    GrownLive(s, t, x, k, k + 1, k, m);
    var r, pm := s.right[m], s.parent[m];
    if r != -1 {
      GrownLive(s, t, x, k, k + 1, k, r);
    }
    if pm != -1 {
      GrownLive(s, t, x, k, k + 1, k, pm);
    }
  }

  lemma InsLeftOtherLeft(s: State, t: State, node: int, m: int, j: int)
    requires LeftReady(s, node, m) && LeftFacts(s, t, node, m)
    requires Live(s, j) && NodeLinked(s, j) && j != m
    ensures LeftLinked(t, j)
  {
    var x, k := s.count, s.pos[m];
    GrownOtherLeft(s, t, x, k, k + 1, k, j);
  }

  lemma InsLeftOtherRight(s: State, t: State, node: int, m: int, j: int)
    requires LeftReady(s, node, m) && LeftFacts(s, t, node, m)
    requires Live(s, j) && NodeLinked(s, j) && j != m
    ensures RightLinked(t, j)
  {
    var x, k := s.count, s.pos[m];
    GrownOtherRight(s, t, x, k, k + 1, k, j);
  }

  lemma InsLeftOtherUp(s: State, t: State, node: int, m: int, j: int)
    requires LeftReady(s, node, m) && LeftFacts(s, t, node, m)
    requires Live(s, j) && NodeLinked(s, j) && j != m
    ensures UpLinked(t, j)
  {
    var x, k := s.count, s.pos[m];
    GrownOtherUp(s, t, x, k, k + 1, k, j);
  }

  lemma InsLeftLinkedOther(s: State, t: State, node: int, m: int, j: int)
    requires LeftReady(s, node, m) && LeftFacts(s, t, node, m)
    requires Live(s, j) && NodeLinked(s, j) && j != m
    ensures Live(t, j) && NodeLinked(t, j)
  {
    var x, k := s.count, s.pos[m];
    GrownBounds(s, t, x, k, k + 1, k, j);
    InsLeftOtherLeft(s, t, node, m, j);
    InsLeftOtherRight(s, t, node, m, j);
    InsLeftOtherUp(s, t, node, m, j);
  }

  lemma InsLeftThreadedNew(s: State, t: State, node: int, m: int)
    requires LeftReady(s, node, m) && LeftFacts(s, t, node, m)
    ensures Live(t, s.count) && NodeThreaded(t, s.count)
    ensures Live(t, m) && NodeThreaded(t, m)
  {
    var x, k := s.count, s.pos[m];
    GrownLive(s, t, x, k, k + 1, k, m);
    assert t.sq[k + 1] == s.sq[k];
    if k > 0 {
      assert t.sq[k - 1] == s.sq[k - 1];
    }
    if k + 1 < |s.sq| {
      assert t.sq[k + 2] == s.sq[k + 1];
    }
  }

  lemma InsLeftThreadedPred(s: State, t: State, node: int, m: int)
    requires LeftReady(s, node, m) && LeftFacts(s, t, node, m) && node != -1
    ensures Live(t, node) && NodeThreaded(t, node)
  {
    var x, k := s.count, s.pos[m];
    GrownLive(s, t, x, k, k + 1, k, node);
    assert t.sq[k - 1] == s.sq[k - 1];
    if k > 1 {
      assert t.sq[k - 2] == s.sq[k - 2];
    }
  }

  lemma InsLeftThreaded(s: State, t: State, node: int, m: int, j: int)
    requires LeftReady(s, node, m) && LeftFacts(s, t, node, m) && Threaded(s)
    requires Live(t, j)
    ensures NodeThreaded(t, j)
  {
    var x, k := s.count, s.pos[m];
    GrownLive(s, t, x, k, k + 1, k, j);
    if j == x || j == m {
      InsLeftThreadedNew(s, t, node, m);
    } else if j == node {
      InsLeftThreadedPred(s, t, node, m);
    } else {
      assert NodeThreaded(s, j);
      GrownThreadOther(s, t, x, k, k + 1, k, j);
    }
  }

  lemma InsLeftRoot(s: State, t: State, node: int, m: int)
    requires LeftReady(s, node, m) && LeftFacts(s, t, node, m)
    ensures RootOk(t)
  {
    var x, k := s.count, s.pos[m];
    GrownLive(s, t, x, k, k + 1, k, s.root);
  }

  lemma InsLeftFresh(s: State, t: State, node: int, m: int)
    requires LeftReady(s, node, m) && LeftFacts(s, t, node, m) && Fresh(s)
    ensures Fresh(t)
  {
  }

  lemma InsLeftAllLinked(s: State, t: State, node: int, m: int)
    requires LeftReady(s, node, m) && LeftFacts(s, t, node, m) && Linked(s)
    ensures Linked(t)
  {
    var x, k := s.count, s.pos[m];
    InsLeftRoot(s, t, node, m);
    forall j | Live(t, j)
      ensures NodeLinked(t, j)
    {
      GrownLive(s, t, x, k, k + 1, k, j);
      if j == x {
        InsLeftLinkedX(s, t, node, m);
      } else if j == m {
        InsLeftLinkedM(s, t, node, m);
      } else {
        assert NodeLinked(s, j);
        InsLeftLinkedOther(s, t, node, m, j);
      }
    }
  }

  /** The shape invariant survives the writes. */
  lemma InsLeftKeeps(s: State, t: State, node: int, m: int)
    requires Struct(s) && LeftReady(s, node, m) && LeftFacts(s, t, node, m)
    ensures Struct(t)
  {
    var x, k := s.count, s.pos[m];
    assert Grown(s, t, x, k, k + 1, k);
    GrownOrdered(s, t, x, k, k + 1, k);
    InsLeftAllLinked(s, t, node, m);
    InsLeftFresh(s, t, node, m);
    forall j | Live(t, j)
      ensures NodeThreaded(t, j)
    {
      InsLeftThreaded(s, t, node, m, j);
    }
  }

  /** Inserting as the left child of m (which has none) puts the new slot
      just before m in the in-order sequence, keeping the shape invariant. */
  lemma InsLeftStruct(s: State, node: int, m: int)
    requires Struct(s) && Live(s, m) && s.left[m] == -1 && s.count < |s.left|
    requires node == -1 ==> s.pos[m] == 0
    requires node != -1 ==> Live(s, node) && s.pos[node] + 1 == s.pos[m]
    ensures LeftReady(s, node, m) && Ref(s, node) && (node > -1 ==> Ref(s, s.next[node]))
    ensures var t, k := InsLeft(s, node, m), s.pos[m];
      Struct(t) && t.sq == s.sq[..k] + [s.count] + s.sq[k..] && LeftFacts(s, t, node, m)
  {
    LeftIsReady(s, node, m);
    InsLeftFields(s, node, m);
    InsLeftKeeps(s, InsLeft(s, node, m), node, m);
  }

  // ---------------------------------------------------------------------
  // The first insertion

  /** Into the empty tree the new slot becomes the root and the only node. */
  lemma InsRootStruct(s: State)
    requires Struct(s) && s.root == -1 && s.count < |s.left|
    ensures var t := InsRoot(s);
      Struct(t) && t.sq == [s.count] && t.root == s.count && t.parent[s.count] == -1 &&
      t.left == s.left && t.right == s.right && t.red == s.red[s.count := true] && t.bh == s.bh[s.count := 0]
  {
    var t, x := InsRoot(s), s.count;
    assert |s.sq| == 0;
    assert Grown(s, t, x, 0, 0, 0);
    assert t.sq == [x];
    assert Live(t, x) && NodeLinked(t, x) && NodeThreaded(t, x);
    forall m | Live(t, m)
      ensures m == x
    {
    }
  }

  // ---------------------------------------------------------------------
  // Colours after the link

  /** The new slot x = count hangs as a red leaf below a, or is the new
      root when a is -1; no other child link and no other colour changed. */
  ghost predicate Attached(s: State, t: State, a: int)
  {
    var x := s.count;
    WF(s) && WF(t) && |t.left| == |s.left| && 0 <= x < |s.left| &&
    t.red == s.red[x := true] && t.bh == s.bh[x := 0] &&
    t.left[x] == -1 && t.right[x] == -1 &&
    (forall m :: 0 <= m < |s.left| && m != a && m != x ==> t.left[m] == s.left[m] && t.right[m] == s.right[m]) &&
    (forall m {:trigger Live(t, m)} :: Live(t, m) && m != x ==> Live(s, m)) &&
    (a == -1 ==> t.root == x) &&
    (a != -1 ==> HangsBelow(s, t, a))
  }

  /** x replaces a nil child of the old node a, the root staying put. */
  ghost predicate HangsBelow(s: State, t: State, a: int)
    requires WF(s) && WF(t) && |t.left| == |s.left|
  {
    var x := s.count;
    0 <= a < |s.left| && a != x && Live(s, a) && t.root == s.root &&
    ((t.left[a] == x && s.left[a] == -1 && t.right[a] == s.right[a]) ||
     (t.right[a] == x && s.right[a] == -1 && t.left[a] == s.left[a]))
  }

  /** Old children are old nodes, never the new slot. */
  lemma OldChildren(s: State, m: int)
    requires Struct(s) && Live(s, m)
    ensures s.left[m] != -1 ==> 0 <= s.left[m] < s.count
    ensures s.right[m] != -1 ==> 0 <= s.right[m] < s.count
  {
    LinksInRange(s, m);
  }

  /** Hanging a red leaf keeps every black height, breaks no red rule
      except possibly at x, and leaves the root black unless it is x. */
  lemma AttachedColour(s: State, t: State, a: int)
    requires Inv(s) && Attached(s, t, a)
    ensures Balanced(t) && RedOk(t, s.count) && (IsRed(t, t.root) ==> t.root == s.count)
  {
    var x := s.count;
    forall m | Live(t, m)
      ensures NodeBalanced(t, m) && NodeRedOk(t, m, x)
    {
      if m != x {
        assert NodeBalanced(s, m) && NodeRedOk(s, m, -1);
        OldChildren(s, m);
      }
    }
    if a != -1 {
      assert 0 <= s.root < s.count;
    }
  }

  lemma InsRightAttached(s: State, t: State, node: int)
    requires Struct(s) && RightReady(s, node) && RightFacts(s, t, node)
    ensures Attached(s, t, node)
  {
    var x, k := s.count, s.pos[node] + 1;
    assert Grown(s, t, x, k, k, k - 1);
    forall m | Live(t, m) && m != x
      ensures Live(s, m)
    {
      GrownLive(s, t, x, k, k, k - 1, m);
    }
  }

  lemma InsLeftAttached(s: State, t: State, node: int, m: int)
    requires Struct(s) && LeftReady(s, node, m) && LeftFacts(s, t, node, m)
    ensures Attached(s, t, m)
  {
    var x, k := s.count, s.pos[m];
    assert Grown(s, t, x, k, k + 1, k);
    forall j | Live(t, j) && j != x
      ensures Live(s, j)
    {
      GrownLive(s, t, x, k, k + 1, k, j);
    }
  }

  lemma InsRootAttached(s: State)
    requires Struct(s) && s.root == -1 && s.count < |s.left|
    ensures Attached(s, InsRoot(s), -1)
  {
    InsRootStruct(s);
  }
}
