/** The arena red-black tree of Assets/Voronoi/Handlers/RedBlackTree.cs
    (and its copies in Structures/RedBlackTree.cs and Handlers/RedBlueTree.cs)
    as a value: the parallel link arrays as sequences, together with the
    bookkeeping that explains them. `sq` is the in-order sequence of live
    nodes, `pos[m]` the place of node m in it, [lo[m], hi[m]] the places
    covered by m's subtree and bh[m] the number of black nodes below m on
    any path to a nil child. */
module TreeState {

  datatype State = State(
    left: seq<int>, right: seq<int>, parent: seq<int>,
    previous: seq<int>, next: seq<int>, red: seq<bool>,
    root: int, count: int,
    sq: seq<int>, pos: seq<int>, lo: seq<int>, hi: seq<int>, bh: seq<int>)

  /** All arrays have one slot per node, and the used slots are [0, count). */
  ghost predicate WF(s: State)
  {
    var n := |s.left|;
    |s.right| == n && |s.parent| == n && |s.previous| == n && |s.next| == n &&
    |s.red| == n && |s.pos| == n && |s.lo| == n && |s.hi| == n && |s.bh| == n &&
    0 <= s.count <= n
  }

  /** Node m is in the tree. */
  ghost predicate Live(s: State, m: int)
  {
    0 <= m < |s.pos| && 0 <= s.pos[m] < |s.sq| && s.sq[s.pos[m]] == m
  }

  /** The in-order sequence lists distinct used slots, and pos inverts it. */
  ghost predicate Ordered(s: State)
    requires WF(s)
  {
    forall i :: 0 <= i < |s.sq| ==> 0 <= s.sq[i] < s.count && s.pos[s.sq[i]] == i
  }

  /** The left link of m: a left subtree covers the places just before m. */
  ghost predicate LeftLinked(s: State, m: int)
    requires WF(s) && 0 <= m < |s.left|
  {
    var l := s.left[m];
    (l == -1 ==> s.lo[m] == s.pos[m]) &&
    (l != -1 ==> Live(s, l) && s.parent[l] == m && s.lo[l] == s.lo[m] && s.hi[l] == s.pos[m] - 1)
  }

  /** The right link of m: a right subtree covers the places just after m. */
  ghost predicate RightLinked(s: State, m: int)
    requires WF(s) && 0 <= m < |s.left|
  {
    var r := s.right[m];
    (r == -1 ==> s.hi[m] == s.pos[m]) &&
    (r != -1 ==> Live(s, r) && s.parent[r] == m && s.lo[r] == s.pos[m] + 1 && s.hi[r] == s.hi[m])
  }

  /** The parent link of m points back at m, or m is the root. */
  ghost predicate UpLinked(s: State, m: int)
    requires WF(s) && 0 <= m < |s.left|
  {
    var p := s.parent[m];
    (p == -1 ==> m == s.root) &&
    (p != -1 ==> Live(s, p) && (s.left[p] == m || s.right[p] == m))
  }

  /** The links at a live node agree with the in-order places. */
  ghost predicate NodeLinked(s: State, m: int)
    requires WF(s) && 0 <= m < |s.left|
  {
    0 <= s.lo[m] <= s.pos[m] <= s.hi[m] < |s.sq| &&
    LeftLinked(s, m) && RightLinked(s, m) && UpLinked(s, m)
  }

  /** `root` is -1 exactly for the empty tree, and otherwise covers all. */
  ghost predicate RootOk(s: State)
    requires WF(s)
  {
    (s.root == -1 <==> |s.sq| == 0) &&
    (s.root != -1 ==> Live(s, s.root) && s.parent[s.root] == -1 &&
                      s.lo[s.root] == 0 && s.hi[s.root] == |s.sq| - 1)
  }

  ghost predicate Linked(s: State)
    requires WF(s)
  {
    RootOk(s) && forall m {:trigger NodeLinked(s, m)} :: Live(s, m) ==> NodeLinked(s, m)
  }

  /** The in-order neighbours of place i, or -1 at the ends. */
  ghost function PrevOf(s: State, i: int): int
    requires 0 <= i < |s.sq|
  {
    if i == 0 then -1 else s.sq[i - 1]
  }

  ghost function NextOf(s: State, i: int): int
    requires 0 <= i < |s.sq|
  {
    if i == |s.sq| - 1 then -1 else s.sq[i + 1]
  }

  /** The previous/next links of node m are its in-order neighbours. */
  ghost predicate NodeThreaded(s: State, m: int)
    requires WF(s) && Live(s, m)
  {
    s.previous[m] == PrevOf(s, s.pos[m]) && s.next[m] == NextOf(s, s.pos[m])
  }

  /** The previous/next list is the in-order sequence. */
  ghost predicate Threaded(s: State)
    requires WF(s)
  {
    forall m {:trigger NodeThreaded(s, m)} :: Live(s, m) ==> NodeThreaded(s, m)
  }

  /** Unused slots have no links yet (the caller initialises them to -1). */
  ghost predicate Fresh(s: State)
    requires WF(s)
  {
    forall m :: s.count <= m < |s.left| ==>
      s.left[m] == -1 && s.right[m] == -1 && s.previous[m] == -1 && s.next[m] == -1
  }

  /** The binary-search-tree shape with its threaded list. */
  ghost predicate Struct(s: State)
  {
    WF(s) && Ordered(s) && Linked(s) && Threaded(s) && Fresh(s)
  }

  ghost predicate IsRed(s: State, c: int)
    requires WF(s)
  {
    0 <= c < |s.red| && s.red[c]
  }

  /** The black nodes a path through child c counts, nil children counting
      none. */
  ghost function Contrib(s: State, c: int): int
    requires WF(s)
  {
    if 0 <= c < |s.bh| then s.bh[c] + (if s.red[c] then 0 else 1) else 0
  }

  /** Both children of m count bh[m] black nodes. */
  ghost predicate NodeBalanced(s: State, m: int)
    requires WF(s) && 0 <= m < |s.left|
  {
    s.bh[m] >= 0 && Contrib(s, s.left[m]) == s.bh[m] && Contrib(s, s.right[m]) == s.bh[m]
  }

  /** Every path below a node crosses the same number of black nodes. */
  ghost predicate Balanced(s: State)
    requires WF(s)
  {
    forall m {:trigger NodeBalanced(s, m)} :: Live(s, m) ==> NodeBalanced(s, m)
  }

  /** A red m has no red child other than x. */
  ghost predicate NodeRedOk(s: State, m: int, x: int)
    requires WF(s) && 0 <= m < |s.left|
  {
    s.red[m] ==> (s.left[m] == x || !IsRed(s, s.left[m])) && (s.right[m] == x || !IsRed(s, s.right[m]))
  }

  /** No red node has a red child, except that x may be one. */
  ghost predicate RedOk(s: State, x: int)
    requires WF(s)
  {
    forall m {:trigger NodeRedOk(s, m, x)} :: Live(s, m) ==> NodeRedOk(s, m, x)
  }

  ghost predicate RootBlack(s: State)
    requires WF(s)
  {
    !IsRed(s, s.root)
  }

  /** The invariant of the tree between operations. */
  ghost predicate Inv(s: State)
  {
    Struct(s) && Balanced(s) && RedOk(s, -1) && RootBlack(s)
  }

  /** A child's subtree covers strictly fewer places than its parent's. */
  lemma ChildNarrower(s: State, m: int)
    requires Struct(s) && Live(s, m)
    ensures NodeLinked(s, m)
    ensures s.left[m] != -1 ==> s.hi[s.left[m]] - s.lo[s.left[m]] < s.hi[m] - s.lo[m]
    ensures s.right[m] != -1 ==> s.hi[s.right[m]] - s.lo[s.right[m]] < s.hi[m] - s.lo[m]
  {
    assert NodeLinked(s, m);
  }

  // ---------------------------------------------------------------------

  /** m is a node index or the -1 that stands for no node. */
  ghost predicate Ref(s: State, m: int)
  {
    -1 <= m < |s.left|
  }

  /** A live node is a node index; its links are references. */
  lemma LinksInRange(s: State, m: int)
    requires WF(s) && Linked(s) && Live(s, m)
    ensures NodeLinked(s, m)
    ensures Ref(s, s.left[m]) && Ref(s, s.right[m]) && Ref(s, s.parent[m])
    ensures s.left[m] != -1 ==> Live(s, s.left[m]) && NodeLinked(s, s.left[m])
    ensures s.right[m] != -1 ==> Live(s, s.right[m]) && NodeLinked(s, s.right[m])
    ensures s.parent[m] != -1 ==> Live(s, s.parent[m]) && NodeLinked(s, s.parent[m])
  {
    assert NodeLinked(s, m);
    var l, r, p := s.left[m], s.right[m], s.parent[m];
    if l != -1 {
      assert NodeLinked(s, l);
    }
    if r != -1 {
      assert NodeLinked(s, r);
    }
    if p != -1 {
      assert NodeLinked(s, p);
    }
  }

  /** The fields a rotation leaves alone. */
  ghost predicate SameList(s: State, t: State)
  {
    t.sq == s.sq && t.pos == s.pos && t.previous == s.previous && t.next == s.next &&
    t.red == s.red && t.count == s.count && t.bh == s.bh
  }

  /** Parts of the invariant that only depend on the list fields. */
  lemma ListPartsKept(s: State, t: State)
    requires Struct(s) && WF(t) && SameList(s, t) && |t.left| == |s.left|
    requires forall m :: t.count <= m < |t.left| ==> t.left[m] == -1 && t.right[m] == -1
    ensures Ordered(t) && Threaded(t) && Fresh(t)
  {
    forall m | Live(t, m)
      ensures NodeThreaded(t, m)
    {
      assert NodeThreaded(s, m);
    }
  }

}
