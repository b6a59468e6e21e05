/** The in-order bookkeeping of a removal from the arena red-black tree:
    the removed node z leaves its place k of the in-order sequence, and the
    places and subtree intervals of the other nodes shift down around it. */
module TreeShrink {
  import opened TreeState

  /** A place or interval end at or after k moves down by one. */
  ghost function Unshift(v: int, k: int): int
  {
    if v >= k then v - 1 else v
  }

  ghost function UnshiftAll(v: seq<int>, k: int): (r: seq<int>)
    ensures |r| == |v| && forall i :: 0 <= i < |v| ==> r[i] == Unshift(v[i], k)
  {
    seq(|v|, i requires 0 <= i < |v| => Unshift(v[i], k))
  }

  /** The in-order sequence loses z at place k; the places after it move
      down. The intervals are stated by each removal case. */
  ghost predicate Shrunk(s: State, t: State, z: int, k: int)
  {
    WF(s) && WF(t) && |t.left| == |s.left| && 0 <= k < |s.sq| && s.sq[k] == z &&
    |t.sq| == |s.sq| - 1 && (forall i :: 0 <= i < |t.sq| ==> t.sq[i] == Dropped(s.sq, k, i)) &&
    t.pos == UnshiftAll(s.pos, k + 1) &&
    t.count == s.count
  }

  /** Place i of the sequence without place k. */
  ghost function Dropped(q: seq<int>, k: int, i: int): int
    requires 0 <= k < |q| && 0 <= i < |q| - 1
  {
    if i < k then q[i] else q[i + 1]
  }

  /** The sequence without place k, place by place. */
  lemma DropPlaces(q: seq<int>, k: int)
    requires 0 <= k < |q|
    ensures var r := q[..k] + q[k + 1..];
      |r| == |q| - 1 && forall i :: 0 <= i < |r| ==> r[i] == Dropped(q, k, i)
  {
  }

  /** The live nodes of the new tree are the old ones other than z, at their
      shifted places. */
  lemma ShrunkLive(s: State, t: State, z: int, k: int, m: int)
    requires Shrunk(s, t, z, k) && Ordered(s)
    ensures Live(s, m) && m != z ==> Live(t, m) && t.pos[m] == Unshift(s.pos[m], k + 1)
    ensures Live(t, m) ==> Live(s, m) && m != z
  {
    if Live(s, m) && m != z {
      var i := s.pos[m];
      if i < k {
        assert t.sq[i] == s.sq[i];
      } else {
        assert t.sq[i - 1] == s.sq[i];
      }
    }
    if Live(t, m) {
      var j := t.pos[m];
      if j < k {
        assert t.sq[j] == s.sq[j];
      } else {
        assert t.sq[j] == s.sq[j + 1];
        assert s.pos[s.sq[j + 1]] == j + 1;
      }
    }
  }

  lemma ShrunkOrdered(s: State, t: State, z: int, k: int)
    requires Shrunk(s, t, z, k) && Ordered(s)
    ensures Ordered(t)
  {
    forall i | 0 <= i < |t.sq|
      ensures 0 <= t.sq[i] < t.count && t.pos[t.sq[i]] == i
    {
      if i < k {
        assert t.sq[i] == s.sq[i];
      } else {
        assert t.sq[i] == s.sq[i + 1];
      }
    }
  }

  /** The interval shifts agree with the link conditions at m as long as m
      is neither z nor, when interval starts from k + 2 on move, the node
      after z. */
  ghost predicate ShrinkFits(s: State, m: int, k: int, loK: int)
    requires WF(s) && 0 <= m < |s.left|
  {
    s.pos[m] != k && (loK == k + 1 || (loK == k + 2 && s.pos[m] != k + 1))
  }

  /** m's interval ends are the shifted old ones. */
  ghost predicate Moved(s: State, t: State, m: int, k: int, loK: int)
    requires WF(s) && WF(t) && |t.left| == |s.left| && 0 <= m < |s.left|
  {
    t.lo[m] == Unshift(s.lo[m], loK) && t.hi[m] == Unshift(s.hi[m], k)
  }

  lemma ShrunkBounds(s: State, t: State, z: int, k: int, loK: int, m: int)
    requires Shrunk(s, t, z, k) && Ordered(s)
    requires Live(s, m) && NodeLinked(s, m) && m != z && ShrinkFits(s, m, k, loK) && Moved(s, t, m, k, loK)
    ensures Live(t, m) && 0 <= t.lo[m] <= t.pos[m] <= t.hi[m] < |t.sq|
  {
    ShrunkLive(s, t, z, k, m);
  }

  lemma ShrunkOtherLeft(s: State, t: State, z: int, k: int, loK: int, m: int)
    requires Shrunk(s, t, z, k) && Ordered(s)
    requires Live(s, m) && NodeLinked(s, m) && m != z && ShrinkFits(s, m, k, loK) && Moved(s, t, m, k, loK)
    requires t.left[m] == s.left[m]
    requires s.left[m] != -1 ==>
      s.left[m] != z && t.parent[s.left[m]] == s.parent[s.left[m]] && Moved(s, t, s.left[m], k, loK)
    ensures LeftLinked(t, m)
  {
    ShrunkLive(s, t, z, k, m);
    if s.left[m] != -1 {
      ShrunkLive(s, t, z, k, s.left[m]);
    }
  }

  lemma ShrunkOtherRight(s: State, t: State, z: int, k: int, loK: int, m: int)
    requires Shrunk(s, t, z, k) && Ordered(s)
    requires Live(s, m) && NodeLinked(s, m) && m != z && ShrinkFits(s, m, k, loK) && Moved(s, t, m, k, loK)
    requires t.right[m] == s.right[m]
    requires s.right[m] != -1 ==>
      s.right[m] != z && t.parent[s.right[m]] == s.parent[s.right[m]] && Moved(s, t, s.right[m], k, loK)
    ensures RightLinked(t, m)
  {
    ShrunkLive(s, t, z, k, m);
    if s.right[m] != -1 {
      ShrunkLive(s, t, z, k, s.right[m]);
    }
  }

  lemma ShrunkOtherUp(s: State, t: State, z: int, k: int, m: int)
    requires Shrunk(s, t, z, k) && Ordered(s)
    requires Live(s, m) && NodeLinked(s, m) && m != z
    requires t.parent[m] == s.parent[m] && s.parent[m] != z
    requires s.parent[m] != -1 && s.left[s.parent[m]] == m ==> t.left[s.parent[m]] == m
    requires s.parent[m] != -1 && s.right[s.parent[m]] == m ==> t.right[s.parent[m]] == m
    requires s.parent[m] == -1 ==> t.root == s.root
    ensures UpLinked(t, m)
  {
    if s.parent[m] != -1 {
      ShrunkLive(s, t, z, k, s.parent[m]);
    }
  }

  /** An untouched node keeps its links. */
  lemma ShrunkOther(s: State, t: State, z: int, k: int, loK: int, m: int)
    requires Shrunk(s, t, z, k) && Ordered(s)
    requires Live(s, m) && NodeLinked(s, m) && m != z && ShrinkFits(s, m, k, loK) && Moved(s, t, m, k, loK)
    requires t.left[m] == s.left[m] && t.right[m] == s.right[m]
    requires s.left[m] != -1 ==>
      s.left[m] != z && t.parent[s.left[m]] == s.parent[s.left[m]] && Moved(s, t, s.left[m], k, loK)
    requires s.right[m] != -1 ==>
      s.right[m] != z && t.parent[s.right[m]] == s.parent[s.right[m]] && Moved(s, t, s.right[m], k, loK)
    requires t.parent[m] == s.parent[m] && s.parent[m] != z
    requires s.parent[m] != -1 && s.left[s.parent[m]] == m ==> t.left[s.parent[m]] == m
    requires s.parent[m] != -1 && s.right[s.parent[m]] == m ==> t.right[s.parent[m]] == m
    requires s.parent[m] == -1 ==> t.root == s.root
    ensures Live(t, m) && NodeLinked(t, m)
  {
    ShrunkBounds(s, t, z, k, loK, m);
    ShrunkOtherLeft(s, t, z, k, loK, m);
    ShrunkOtherRight(s, t, z, k, loK, m);
    ShrunkOtherUp(s, t, z, k, m);
  }

  /** The list links of lines 141-144: z's neighbours are linked to each
      other. */
  ghost predicate Unthreaded(s: State, t: State, z: int)
    requires WF(s) && 0 <= z < |s.left| && Ref(s, s.previous[z]) && Ref(s, s.next[z])
  {
    var pv, nx := s.previous[z], s.next[z];
    t.next == (if pv > -1 then s.next[pv := nx] else s.next) &&
    t.previous == (if nx > -1 then s.previous[nx := pv] else s.previous)
  }

  ghost predicate UnthreadReady(s: State, t: State, z: int, k: int)
  {
    Shrunk(s, t, z, k) && Ordered(s) && Threaded(s) && Ref(s, s.previous[z]) && Ref(s, s.next[z]) &&
    Unthreaded(s, t, z)
  }

  /** z's list neighbours sit at the places next to k. */
  lemma ShrunkNeighbours(s: State, t: State, z: int, k: int)
    requires UnthreadReady(s, t, z, k)
    ensures s.previous[z] == PrevOf(s, k) && s.next[z] == NextOf(s, k)
    ensures s.previous[z] != -1 ==> s.pos[s.previous[z]] == k - 1
    ensures s.next[z] != -1 ==> s.pos[s.next[z]] == k + 1
  {
    assert NodeThreaded(s, z);
    if k > 0 {
      assert s.pos[s.sq[k - 1]] == k - 1;
    }
    if k + 1 < |s.sq| {
      assert s.pos[s.sq[k + 1]] == k + 1;
    }
  }

  lemma ShrunkPrev(s: State, t: State, z: int, k: int, m: int)
    requires UnthreadReady(s, t, z, k) && Live(s, m) && m != z
    ensures Live(t, m) && t.previous[m] == PrevOf(t, t.pos[m])
  {
    ShrunkLive(s, t, z, k, m);
    ShrunkNeighbours(s, t, z, k);
    var i := s.pos[m];
    if i != k + 1 {
      assert NodeThreaded(s, m);
      if i < k && i > 0 {
        assert t.sq[i - 1] == s.sq[i - 1];
      } else if i > k + 1 {
        assert t.sq[i - 2] == s.sq[i - 1];
      }
    } else if k > 0 {
      assert t.sq[k - 1] == s.sq[k - 1];
    }
  }

  lemma ShrunkNext(s: State, t: State, z: int, k: int, m: int)
    requires UnthreadReady(s, t, z, k) && Live(s, m) && m != z
    ensures Live(t, m) && t.next[m] == NextOf(t, t.pos[m])
  {
    ShrunkLive(s, t, z, k, m);
    ShrunkNeighbours(s, t, z, k);
    var i := s.pos[m];
    if i != k - 1 {
      assert NodeThreaded(s, m);
      if i < k - 1 {
        assert t.sq[i + 1] == s.sq[i + 1];
      } else if i + 1 < |s.sq| {
        assert t.sq[i] == s.sq[i + 1];
      }
    } else if k + 1 < |s.sq| {
      assert t.sq[k] == s.sq[k + 1];
    }
  }

  /** The list links written are those of live nodes. */
  lemma ShrunkFreshList(s: State, t: State, z: int, k: int)
    requires UnthreadReady(s, t, z, k)
    ensures forall m :: t.count <= m < |t.left| ==> t.previous[m] == s.previous[m] && t.next[m] == s.next[m]
  {
    ShrunkNeighbours(s, t, z, k);
    if s.previous[z] != -1 {
      assert s.sq[k - 1] < s.count;
    }
    if s.next[z] != -1 {
      assert s.sq[k + 1] < s.count;
    }
  }

  /** After the list links of lines 141-144 every remaining node is
      threaded, at its shifted place. */
  lemma ShrunkThreaded(s: State, t: State, z: int, k: int, m: int)
    requires UnthreadReady(s, t, z, k) && Live(t, m)
    ensures NodeThreaded(t, m)
  {
    ShrunkLive(s, t, z, k, m);
    ShrunkPrev(s, t, z, k, m);
    ShrunkNext(s, t, z, k, m);
  }

}
