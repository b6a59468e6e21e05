/** The in-order bookkeeping of an insertion into the arena red-black tree:
    the new slot takes one place of the in-order sequence, and the places
    and subtree intervals of the other nodes shift around it. */
module TreeGrow {
  import opened TreeState

  /** A place or interval end at or after k moves up by one. */
  ghost function Shift(v: int, k: int): int
  {
    if v >= k then v + 1 else v
  }

  ghost function ShiftAll(v: seq<int>, k: int): (r: seq<int>)
    ensures |r| == |v| && forall i :: 0 <= i < |v| ==> r[i] == Shift(v[i], k)
  {
    seq(|v|, i requires 0 <= i < |v| => Shift(v[i], k))
  }

  /** The bookkeeping of an insertion of x at place k of the in-order
      sequence: places from k on move up; interval starts from loK on and
      interval ends from hiK on move up; x covers place k alone. */
  ghost predicate Grown(s: State, t: State, x: int, k: int, loK: int, hiK: int)
  {
    WF(s) && WF(t) && |t.left| == |s.left| && 0 <= x < |s.left| && 0 <= k <= |s.sq| &&
    t.sq == s.sq[..k] + [x] + s.sq[k..] &&
    t.pos == ShiftAll(s.pos, k)[x := k] &&
    t.lo == ShiftAll(s.lo, loK)[x := k] &&
    t.hi == ShiftAll(s.hi, hiK)[x := k] &&
    t.bh == s.bh[x := 0] &&
    t.count == s.count + 1
  }

  ghost function Grow(s: State, x: int, k: int, loK: int, hiK: int): (t: State)
    requires WF(s) && s.count < |s.left| && 0 <= x < |s.left| && 0 <= k <= |s.sq|
    ensures Grown(s, t, x, k, loK, hiK)
  {
    s.(sq := s.sq[..k] + [x] + s.sq[k..],
       pos := ShiftAll(s.pos, k)[x := k],
       lo := ShiftAll(s.lo, loK)[x := k],
       hi := ShiftAll(s.hi, hiK)[x := k],
       bh := s.bh[x := 0],
       count := s.count + 1)
  }

  /** Nodes of the old tree are exactly the live nodes of the new one other
      than x, at their shifted places. */
  lemma GrownLive(s: State, t: State, x: int, k: int, loK: int, hiK: int, m: int)
    requires Grown(s, t, x, k, loK, hiK) && Ordered(s) && x == s.count
    ensures Live(t, x)
    ensures Live(s, m) ==> Live(t, m) && m != x && t.pos[m] == Shift(s.pos[m], k)
    ensures Live(t, m) && m != x ==> Live(s, m)
  {
    if Live(s, m) {
      var i := s.pos[m];
      assert s.sq[i] == m;
      if i < k {
        assert t.sq[i] == s.sq[i];
      } else {
        assert t.sq[i + 1] == s.sq[i];
      }
    }
    if Live(t, m) && m != x {
      var j := t.pos[m];
      assert j == Shift(s.pos[m], k);
      if s.pos[m] < k {
        assert t.sq[j] == s.sq[j];
      } else {
        assert t.sq[j] == s.sq[j - 1];
      }
    }
  }

  lemma GrownOrdered(s: State, t: State, x: int, k: int, loK: int, hiK: int)
    requires Grown(s, t, x, k, loK, hiK) && Ordered(s) && x == s.count
    ensures Ordered(t)
  {
    forall i | 0 <= i < |t.sq|
      ensures 0 <= t.sq[i] < t.count && t.pos[t.sq[i]] == i
    {
      if i < k {
        assert t.sq[i] == s.sq[i];
      } else if i > k {
        assert t.sq[i] == s.sq[i - 1];
      }
    }
  }

  /** The neighbours of an old node are old nodes, at their shifted places. */
  lemma GrownNeighbours(s: State, t: State, x: int, k: int, loK: int, hiK: int, m: int)
    requires Grown(s, t, x, k, loK, hiK) && Ordered(s) && x == s.count
    requires Live(s, m) && NodeLinked(s, m)
    ensures Live(t, m) && m != x && t.pos[m] == Shift(s.pos[m], k)
    ensures s.left[m] != -1 ==> Live(t, s.left[m]) && s.left[m] != x
    ensures s.right[m] != -1 ==> Live(t, s.right[m]) && s.right[m] != x
    ensures s.parent[m] != -1 ==> Live(t, s.parent[m]) && s.parent[m] != x
  {
    GrownLive(s, t, x, k, loK, hiK, m);
    var l, r, p := s.left[m], s.right[m], s.parent[m];
    if l != -1 {
      GrownLive(s, t, x, k, loK, hiK, l);
    }
    if r != -1 {
      GrownLive(s, t, x, k, loK, hiK, r);
    }
    if p != -1 {
      GrownLive(s, t, x, k, loK, hiK, p);
    }
  }

  /** The interval shifts agree with the link conditions at m, as long as m
      is not the node next to the insertion point whose link changes. */
  ghost predicate ShiftFits(s: State, m: int, k: int, loK: int, hiK: int)
    requires WF(s) && 0 <= m < |s.left|
  {
    (loK == k && hiK == k - 1 && s.pos[m] != k - 1) ||
    (loK == k + 1 && hiK == k && s.pos[m] != k)
  }

  /** A node whose links are untouched stays linked after the shift: its
      interval, its left link, its right link and its parent link. */
  lemma GrownBounds(s: State, t: State, x: int, k: int, loK: int, hiK: int, m: int)
    requires Grown(s, t, x, k, loK, hiK) && Ordered(s) && x == s.count
    requires Live(s, m) && NodeLinked(s, m) && ShiftFits(s, m, k, loK, hiK)
    ensures Live(t, m) && 0 <= t.lo[m] <= t.pos[m] <= t.hi[m] < |t.sq|
  {
    GrownLive(s, t, x, k, loK, hiK, m);
  }

  lemma GrownOtherLeft(s: State, t: State, x: int, k: int, loK: int, hiK: int, m: int)
    requires Grown(s, t, x, k, loK, hiK) && Ordered(s) && x == s.count
    requires Live(s, m) && NodeLinked(s, m) && ShiftFits(s, m, k, loK, hiK)
    requires t.left[m] == s.left[m]
    requires s.left[m] != -1 ==> t.parent[s.left[m]] == s.parent[s.left[m]]
    ensures LeftLinked(t, m)
  {
    GrownNeighbours(s, t, x, k, loK, hiK, m);
  }

  lemma GrownOtherRight(s: State, t: State, x: int, k: int, loK: int, hiK: int, m: int)
    requires Grown(s, t, x, k, loK, hiK) && Ordered(s) && x == s.count
    requires Live(s, m) && NodeLinked(s, m) && ShiftFits(s, m, k, loK, hiK)
    requires t.right[m] == s.right[m]
    requires s.right[m] != -1 ==> t.parent[s.right[m]] == s.parent[s.right[m]]
    ensures RightLinked(t, m)
  {
    GrownNeighbours(s, t, x, k, loK, hiK, m);
  }

  lemma GrownOtherUp(s: State, t: State, x: int, k: int, loK: int, hiK: int, m: int)
    requires Grown(s, t, x, k, loK, hiK) && Ordered(s) && x == s.count
    requires Live(s, m) && NodeLinked(s, m)
    requires t.parent[m] == s.parent[m]
    requires s.parent[m] != -1 && s.left[s.parent[m]] == m ==> t.left[s.parent[m]] == m
    requires s.parent[m] != -1 && s.right[s.parent[m]] == m ==> t.right[s.parent[m]] == m
    requires s.parent[m] == -1 ==> t.root == s.root
    ensures UpLinked(t, m)
  {
    GrownNeighbours(s, t, x, k, loK, hiK, m);
  }

  /** Away from the insertion point the previous/next links still match the
      shifted neighbours. */
  lemma GrownThreadOther(s: State, t: State, x: int, k: int, loK: int, hiK: int, m: int)
    requires Grown(s, t, x, k, loK, hiK) && Ordered(s) && x == s.count
    requires Live(s, m) && NodeThreaded(s, m) && s.pos[m] != k - 1 && s.pos[m] != k
    requires Live(t, m) && t.pos[m] == Shift(s.pos[m], k)
    requires t.previous[m] == s.previous[m] && t.next[m] == s.next[m]
    ensures NodeThreaded(t, m)
  {
    var i := s.pos[m];
    if i < k {
      if i > 0 {
        assert t.sq[i - 1] == s.sq[i - 1];
      }
      if i + 1 < |s.sq| {
        assert t.sq[i + 1] == s.sq[i + 1];
      }
    } else {
      assert t.sq[i] == s.sq[i - 1];
      if i + 1 < |s.sq| {
        assert t.sq[i + 2] == s.sq[i + 1];
      }
    }
  }

}
