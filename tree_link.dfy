/** The state in which the recolouring loop of RedBlackTree.cs:71-126
    starts: after the link of lines 21-69 the new node is a red leaf, the
    only possible red-red edge is the one above it, and it sits at its
    place in the in-order sequence. */
module TreeLink {
  import opened TreeState
  import opened TreeGrow
  import opened TreeInsert
  import opened TreeFixup

  /** Lines 30-34, 44 and 68-69: what the writes of an insertion after a
      node without right child establish, for any state t showing them. */
  lemma LinkRight(s: State, t: State, node: int)
    requires Inv(s) && RightReady(s, node) && RightFacts(s, t, node)
    ensures FixInv(t, s.count)
  {
    var x, k := s.count, s.pos[node] + 1;
    InsRightKeeps(s, t, node);
    InsRightAttached(s, t, node);
    AttachedColour(s, t, node);
    assert Grown(s, t, x, k, k, k - 1);
    GrownLive(s, t, x, k, k, k - 1, x);
  }

  /** Lines 30-34, 39-40 and 68-69, or 52-56 and 68-69 when node is -1:
      the new node as the left child of m, the first node after node. */
  lemma LinkLeft(s: State, t: State, node: int, m: int)
    requires Inv(s) && LeftReady(s, node, m) && LeftFacts(s, t, node, m)
    ensures FixInv(t, s.count)
  {
    var x, k := s.count, s.pos[m];
    InsLeftKeeps(s, t, node, m);
    InsLeftAttached(s, t, node, m);
    AttachedColour(s, t, m);
    assert Grown(s, t, x, k, k + 1, k);
    GrownLive(s, t, x, k, k + 1, k, x);
  }

  /** What the first insertion writes (lines 63-64 and 68-69). */
  ghost predicate RootFacts(s: State, t: State)
  {
    var x := s.count;
    Grown(s, t, x, 0, 0, 0) && t.root == x &&
    t.left == s.left && t.right == s.right && t.parent == s.parent[x := -1] && t.red == s.red[x := true] &&
    t.previous == s.previous && t.next == s.next
  }

  /** The first node of an empty tree is its root, and its only node. */
  lemma LinkRoot(s: State, t: State)
    requires Inv(s) && s.root == -1 && s.count < |s.left| && RootFacts(s, t)
    ensures FixInv(t, s.count) && t.sq == [s.count]
  {
    var x := s.count;
    assert t == InsRoot(s);
    InsRootStruct(s);
    InsRootAttached(s);
    AttachedColour(s, t, -1);
    assert Live(t, x);
  }

  /** A live node is a used slot, and its list successor a reference
      other than the free slot count. */
  lemma ThreadReady(s: State, node: int)
    requires Struct(s) && Live(s, node) && s.count < |s.left|
    ensures node < s.count && Ref(s, s.next[node]) && s.next[node] != s.count
  {
    assert NodeThreaded(s, node);
    var i := s.pos[node];
    assert 0 <= s.sq[i] < s.count;
    if i + 1 < |s.sq| {
      assert 0 <= s.sq[i + 1] < s.count;
    }
  }

  /** Lines 30-34, 44 and 63-69 field by field: a state t whose fields are
      those the insertion after node (without right child) writes. */
  lemma LinkRightFields(s: State, t: State, node: int)
    requires Inv(s) && Live(s, node) && s.right[node] == -1 && s.count < |s.left| && Ref(s, s.next[node])
    requires var x, k := s.count, s.pos[node] + 1;
      t.left == s.left && t.right == s.right[node := x] && t.parent == s.parent[x := node] &&
      t.red == s.red[x := true] && t.root == s.root && t.count == x + 1 &&
      t.next == s.next[x := s.next[node]][node := x] &&
      t.previous == (if s.next[node] > -1 then s.previous[x := node][s.next[node] := x] else s.previous[x := node]) &&
      t.sq == s.sq[..k] + [x] + s.sq[k..] && t.pos == ShiftAll(s.pos, k)[x := k] &&
      t.lo == ShiftAll(s.lo, k)[x := k] && t.hi == ShiftAll(s.hi, k - 1)[x := k] && t.bh == s.bh[x := 0]
    ensures FixInv(t, s.count)
  {
    ThreadReady(s, node);
    RightIsReady(s, node);
    assert RightFacts(s, t, node);
    LinkRight(s, t, node);
  }

  /** Lines 30-34 and 39-40, or 52-56 when node is -1, field by field: x
      becomes the left child of m, the node after node. */
  lemma LinkLeftFields(s: State, t: State, node: int, m: int)
    requires Inv(s) && Live(s, m) && s.left[m] == -1 && s.count < |s.left|
    requires node == -1 ==> s.pos[m] == 0
    requires node != -1 ==> Live(s, node) && s.pos[node] + 1 == s.pos[m] && Ref(s, s.next[node])
    requires var x, k := s.count, s.pos[m];
      t.left == s.left[m := x] && t.right == s.right && t.parent == s.parent[x := m] &&
      t.red == s.red[x := true] && t.root == s.root && t.count == x + 1 &&
      (node != -1 ==>
        t.next == s.next[x := s.next[node]][node := x] &&
        t.previous == (if s.next[node] > -1 then s.previous[x := node][s.next[node] := x] else s.previous[x := node])) &&
      (node == -1 ==> t.next == s.next[x := m] && t.previous == s.previous[m := x]) &&
      t.sq == s.sq[..k] + [x] + s.sq[k..] && t.pos == ShiftAll(s.pos, k)[x := k] &&
      t.lo == ShiftAll(s.lo, k + 1)[x := k] && t.hi == ShiftAll(s.hi, k)[x := k] && t.bh == s.bh[x := 0]
    ensures FixInv(t, s.count)
  {
    if node != -1 {
      ThreadReady(s, node);
    }
    LeftIsReady(s, node, m);
    assert LeftFacts(s, t, node, m);
    LinkLeft(s, t, node, m);
  }
}
