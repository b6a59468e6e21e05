/** The event queue of the sweep (Assets/Voronoi/Handlers/MinHeap.cs): a
    binary min-heap in a fixed-size array, ordered by (Y, X). The source's
    static methods take the array and `ref int count`; here the two are the
    fields of one object. */
module MinHeap {
  import opened Wrappers
  import opened Events

  /** float.CompareTo on non-NaN values. */
  function CompareFloat(a: real, b: real): (r: int)
    ensures r == -1 || r == 0 || r == 1
    ensures r < 0 <==> a < b
    ensures r == 0 <==> a == b
  {
    if a < b then -1 else if a > b then 1 else 0
  }

  /** LeftLessThanRight on the two events it reads: Y decides, X breaks
      ties. */
  function LeftLessThanRight(a: FortuneEvent, b: FortuneEvent): (r: bool)
    ensures r <==> a.y < b.y || (a.y == b.y && a.x < b.x)
  {
    (if CompareFloat(a.y, b.y) == 0 then CompareFloat(a.x, b.x) else CompareFloat(a.y, b.y)) < 0
  }

  /** LeftLessThanRight is a strict order, total up to equal (Y, X). */
  lemma LeftLessThanRightIsStrictOrder(a: FortuneEvent, b: FortuneEvent, c: FortuneEvent)
    ensures !LeftLessThanRight(a, a)
    ensures LeftLessThanRight(a, b) ==> !LeftLessThanRight(b, a)
    ensures LeftLessThanRight(a, b) && LeftLessThanRight(b, c) ==> LeftLessThanRight(a, c)
    ensures !LeftLessThanRight(a, b) && !LeftLessThanRight(b, a) ==> a.y == b.y && a.x == b.x
  {
  }

  /** C#'s `(index - 1) / 2`, which truncates toward zero: the parent of
      slot 0 is slot 0 itself. */
  function ParentIndex(index: int): (p: int)
    requires index >= 0
    ensures index == 0 ==> p == 0
    ensures index > 0 ==> 0 <= p < index && (index == 2 * p + 1 || index == 2 * p + 2)
  {
    if index - 1 < 0 then -((1 - index) / 2) else (index - 1) / 2
  }

  /** No slot of the first n is less than its parent. */
  ghost predicate HeapOrdered(s: seq<FortuneEvent>, n: int)
    requires 0 <= n <= |s|
  {
    forall i :: 0 < i < n ==> !LeftLessThanRight(s[i], s[ParentIndex(i)])
  }

  /** Heap order on the first n slots except between slot k and its parent;
      the children of k are not less than k's parent. This holds while k
      moves up. */
  ghost predicate HeapExceptUp(s: seq<FortuneEvent>, n: int, k: int)
    requires 0 <= n <= |s| && 0 <= k
  {
    (forall i :: 0 < i < n && i != k ==> !LeftLessThanRight(s[i], s[ParentIndex(i)])) &&
    (0 < k && 2 * k + 1 < n ==> !LeftLessThanRight(s[2 * k + 1], s[ParentIndex(k)])) &&
    (0 < k && 2 * k + 2 < n ==> !LeftLessThanRight(s[2 * k + 2], s[ParentIndex(k)]))
  }

  /** Heap order on the first n slots except between slot k and its
      children, which are not less than k's parent. This holds while k moves
      down. */
  ghost predicate HeapExceptDown(s: seq<FortuneEvent>, n: int, k: int)
    requires 0 <= n <= |s| && 0 <= k
  {
    (forall i :: 0 < i < n && ParentIndex(i) != k ==> !LeftLessThanRight(s[i], s[ParentIndex(i)])) &&
    (0 < k && 2 * k + 1 < n ==> !LeftLessThanRight(s[2 * k + 1], s[ParentIndex(k)])) &&
    (0 < k && 2 * k + 2 < n ==> !LeftLessThanRight(s[2 * k + 2], s[ParentIndex(k)]))
  }

  /** `s` with slots i and j exchanged. */
  function Swapped<T>(s: seq<T>, i: int, j: int): (r: seq<T>)
    requires 0 <= i < |s| && 0 <= j < |s|
    ensures |r| == |s| && r[i] == s[j] && r[j] == s[i]
    ensures forall k :: 0 <= k < |s| && k != i && k != j ==> r[k] == s[k]
  {
    s[i := s[j]][j := s[i]]
  }

  /** Exchanging two of the first n slots permutes them and leaves the rest. */
  lemma {:induction false} SwappedPermutes<T>(s: seq<T>, i: int, j: int, n: int)
    requires 0 <= i < n && 0 <= j < n && n <= |s|
    ensures multiset(Swapped(s, i, j)[..n]) == multiset(s[..n])
    ensures Swapped(s, i, j)[n..] == s[n..]
  {
    var t := s[i := s[j]];
    assert t[..n] == s[..n][i := s[j]];
    assert Swapped(s, i, j)[..n] == t[..n][j := s[i]];
  }

  /** The first slot of a heap holds a least element. */
  lemma {:induction false} HeapRootIsLeast(s: seq<FortuneEvent>, n: int, j: int)
    requires 0 <= j < n <= |s| && HeapOrdered(s, n)
    ensures !LeftLessThanRight(s[j], s[0])
    decreases j
  {
    if j > 0 {
      HeapRootIsLeast(s, n, ParentIndex(j));
    }
  }

  /** One step of PercolateUp: the parent of k is not less than k, so the
      two swap and the defect moves up to the parent. */
  lemma {:induction false} UpStep(s: seq<FortuneEvent>, n: int, k: int)
    requires 0 < k < n <= |s| && HeapExceptUp(s, n, k)
    requires !LeftLessThanRight(s[ParentIndex(k)], s[k])
    ensures HeapExceptUp(Swapped(s, k, ParentIndex(k)), n, ParentIndex(k))
  {
    var p := ParentIndex(k);
    var t := Swapped(s, k, p);
    forall i | 0 < i < n && i != p
      ensures !LeftLessThanRight(t[i], t[ParentIndex(i)])
    {
      if i == k {
      } else if ParentIndex(i) == k {
        assert i == 2 * k + 1 || i == 2 * k + 2;
      } else if ParentIndex(i) == p {
        assert !LeftLessThanRight(s[i], s[p]);
      }
    }
    if 0 < p {
      var pp := ParentIndex(p);
      assert !LeftLessThanRight(s[p], s[pp]);
      if 2 * p + 1 < n && 2 * p + 1 != k {
        assert ParentIndex(2 * p + 1) == p;
        assert !LeftLessThanRight(s[2 * p + 1], s[p]);
      }
      if 2 * p + 2 < n && 2 * p + 2 != k {
        assert ParentIndex(2 * p + 2) == p;
        assert !LeftLessThanRight(s[2 * p + 2], s[p]);
      }
    }
  }

  /** One step of PercolateDown: the least child m of k is less than k, so
      they swap and the defect moves down to m. */
  lemma {:induction false} DownStep(s: seq<FortuneEvent>, n: int, k: int, m: int)
    requires 0 <= k && 0 <= n <= |s| && HeapExceptDown(s, n, k)
    requires (m == 2 * k + 1 || m == 2 * k + 2) && m < n
    requires LeftLessThanRight(s[m], s[k])
    requires 2 * k + 1 < n && m != 2 * k + 1 ==> !LeftLessThanRight(s[2 * k + 1], s[m])
    requires 2 * k + 2 < n && m != 2 * k + 2 ==> !LeftLessThanRight(s[2 * k + 2], s[m])
    ensures HeapExceptDown(Swapped(s, k, m), n, m)
  {
    var t := Swapped(s, k, m);
    assert ParentIndex(m) == k;
    forall i | 0 < i < n && ParentIndex(i) != m
      ensures !LeftLessThanRight(t[i], t[ParentIndex(i)])
    {
      if i == m {
      } else if ParentIndex(i) == k {
        assert i == 2 * k + 1 || i == 2 * k + 2;
      } else if i == k {
        assert 2 * k + 1 == m || 2 * k + 2 == m;
      }
    }
    if 2 * m + 1 < n {
      assert ParentIndex(2 * m + 1) == m;
    }
    if 2 * m + 2 < n {
      assert ParentIndex(2 * m + 2) == m;
    }
  }

  /** When k is not less than any child, the defect is gone. */
  lemma DownDone(s: seq<FortuneEvent>, n: int, k: int)
    requires 0 <= k && 0 <= n <= |s| && HeapExceptDown(s, n, k)
    requires 2 * k + 1 < n ==> !LeftLessThanRight(s[2 * k + 1], s[k])
    requires 2 * k + 2 < n ==> !LeftLessThanRight(s[2 * k + 2], s[k])
    ensures HeapOrdered(s, n)
  {
    forall i | 0 < i < n
      ensures !LeftLessThanRight(s[i], s[ParentIndex(i)])
    {
      if ParentIndex(i) == k {
        assert i == 2 * k + 1 || i == 2 * k + 2;
      }
    }
  }

  /** The first index among `s` whose event has the given id, or -1. */
  function IndexOfId(s: seq<FortuneEvent>, id: int): (r: int)
    ensures -1 <= r < |s|
    ensures r >= 0 ==> s[r].id == id && forall j :: 0 <= j < r ==> s[j].id != id
    ensures r == -1 ==> forall j :: 0 <= j < |s| ==> s[j].id != id
  {
    if s == [] then -1
    else if s[0].id == id then 0
    else var r := IndexOfId(s[1..], id); if r == -1 then -1 else r + 1
  }

  class EventHeap {
    const events: array<FortuneEvent>
    var count: int

    ghost predicate Valid()
      reads this, events
    {
      0 <= count <= events.Length && HeapOrdered(events[..], count)
    }

    /** The queued events. */
    ghost function Contents(): multiset<FortuneEvent>
      reads this, events
      requires 0 <= count <= events.Length
    {
      multiset(events[..count])
    }

    /** An empty queue over a fresh array of the given length. */
    constructor (length: nat, filler: FortuneEvent)
      ensures Valid() && fresh(events) && events.Length == length && count == 0
    {
      events := new FortuneEvent[length](_ => filler);
      count := 0;
    }

    /** Swap: exchanges two slots, the rest is untouched. */
    method Swap(left: int, right: int)
      requires 0 <= left < events.Length && 0 <= right < events.Length
      modifies events
      ensures events[..] == Swapped(old(events[..]), left, right)
    {
      var temp := events[left];
      events[left] := events[right];
      events[right] := temp;
    }

    /** PercolateUp: moves the event at `index` up until its parent is
        less than it; an index outside 1..n-1 stops at once. */
    method PercolateUp(index: int, n: int)
      requires 0 <= index && 0 <= n <= events.Length
      requires HeapExceptUp(events[..], n, index)
      modifies events
      ensures HeapOrdered(events[..], n)
      ensures multiset(events[..n]) == old(multiset(events[..n]))
      ensures events[n..] == old(events[n..])
    {
      var k := index;
      while true
        invariant 0 <= k
        invariant HeapExceptUp(events[..], n, k)
        invariant multiset(events[..n]) == old(multiset(events[..n]))
        invariant events[n..] == old(events[n..])
        decreases k
      {
        if k >= n || k <= 0 {
          return;
        }
        var parent := ParentIndex(k);
        if LeftLessThanRight(events[parent], events[k]) {
          return;
        }
        UpStep(events[..], n, k);
        SwappedPermutes(events[..], k, parent, n);
        Swap(k, parent);
        k := parent;
      }
    }

    /** PercolateDown: moves the event at `index` down, towards its least
        child, while that child is less than it. */
    method PercolateDown(index: int, n: int)
      requires 0 <= index && 0 <= n <= events.Length
      requires HeapExceptDown(events[..], n, index)
      modifies events
      ensures HeapOrdered(events[..], n)
      ensures multiset(events[..n]) == old(multiset(events[..n]))
      ensures events[n..] == old(events[n..])
    {
      var k := index;
      while true
        invariant 0 <= k
        invariant HeapExceptDown(events[..], n, k)
        invariant multiset(events[..n]) == old(multiset(events[..n]))
        invariant events[n..] == old(events[n..])
        decreases n - k
      {
        var left := 2 * k + 1;
        var right := 2 * k + 2;
        var largest := k;
        if left < n && LeftLessThanRight(events[left], events[largest]) {
          largest := left;
        }
        if right < n && LeftLessThanRight(events[right], events[largest]) {
          largest := right;
        }
        if largest == k {
          DownDone(events[..], n, k);
          return;
        }
        DownStep(events[..], n, k, largest);
        SwappedPermutes(events[..], k, largest, n);
        Swap(k, largest);
        k := largest;
      }
    }

    /** EventInsert: throws when the array is full; otherwise the queue
        gains exactly the new event. */
    method EventInsert(e: FortuneEvent) returns (o: Outcome)
      requires Valid()
      modifies this, events
      ensures Valid()
      ensures o.Pass? <==> old(count) != events.Length
      ensures o.Pass? ==> count == old(count) + 1 && Contents() == old(Contents()) + multiset{e}
      ensures o.Fail? ==> count == old(count) && events[..] == old(events[..])
    {
      if count == events.Length {
        return Fail("Min heap capacity reached");
      }
      ghost var before := events[..];
      events[count] := e;
      count := count + 1;
      assert events[..count] == before[..count - 1] + [e];
      PercolateUp(count - 1, count);
      o := Pass;
    }

    /** EventPop: throws on an empty queue; otherwise removes and returns a
        least event. */
    method EventPop() returns (r: Result<FortuneEvent>)
      requires Valid()
      modifies this, events
      ensures Valid()
      ensures r.Ok? <==> old(count) != 0
      ensures r.Ok? ==> r.value in old(Contents())
      ensures r.Ok? ==> count == old(count) - 1 && Contents() == old(Contents()) - multiset{r.value}
      ensures r.Ok? ==> forall e :: e in old(Contents()) ==> !LeftLessThanRight(e, r.value)
      ensures r.Err? ==> count == old(count) && events[..] == old(events[..])
    {
      if count == 0 {
        return Err("Min heap is empty");
      }
      ghost var before := events[..];
      HeapRootIsLeastAll(before, count);
      if count == 1 {
        count := count - 1;
        assert before[..1] == [events[0]];
        return Ok(events[count]);
      }
      var min := events[0];
      PopShape(before, count);
      events[0] := events[count - 1];
      count := count - 1;
      assert events[..] == before[0 := before[count]];
      PercolateDown(0, count);
      r := Ok(min);
    }

    /** EventPeek: throws on an empty queue; otherwise the event in the first
        slot, a least one. */
    method EventPeek() returns (r: Result<FortuneEvent>)
      requires Valid()
      ensures r.Ok? <==> count != 0
      ensures r.Ok? ==> r.value == events[0] && r.value in Contents()
      ensures r.Ok? ==> forall e :: e in Contents() ==> !LeftLessThanRight(e, r.value)
    {
      if count == 0 {
        return Err("Min heap is empty");
      }
      HeapRootIsLeastAll(events[..], count);
      r := Ok(events[0]);
    }

    /** The linear scan of EventRemove. */
    method FindId(id: int) returns (index: int)
      requires 0 <= count <= events.Length
      ensures index == IndexOfId(events[..count], id)
    {
      index := -1;
      var i := 0;
      while i < count
        invariant 0 <= i <= count
        invariant forall j :: 0 <= j < i ==> events[j].id != id
      {
        if events[i].id == id {
          index := i;
          break;
        }
        i := i + 1;
      }
      if index == -1 {
        assert i == count;
      }
      IndexOfIdUnique(events[..count], id, index);
    }

    /** EventRemove: false, and nothing changes, when no queued event has
        the id; otherwise the first queued event with that id is removed. */
    method EventRemove(e: FortuneEvent) returns (found: bool)
      requires Valid()
      modifies this, events
      ensures Valid()
      ensures found <==> IndexOfId(old(events[..count]), e.id) >= 0
      ensures !found ==> count == old(count) && events[..] == old(events[..])
      ensures found ==> count == old(count) - 1
      ensures found ==> Contents() == old(Contents()) - multiset{old(events[IndexOfId(events[..count], e.id)])}
    {
      var index := FindId(e.id);
      if index == -1 {
        return false;
      }
      ghost var before := events[..];
      RemoveShape(before, index, count);
      count := count - 1;
      Swap(index, count);
      if LeftLessThanRight(events[index], events[ParentIndex(index)]) {
        PercolateUp(index, count);
      } else {
        PercolateDown(index, count);
      }
      found := true;
    }
  }

  /** Every element of a heap is at least its first slot. */
  lemma HeapRootIsLeastAll(s: seq<FortuneEvent>, n: int)
    requires 0 < n <= |s| && HeapOrdered(s, n)
    ensures forall e :: e in multiset(s[..n]) ==> !LeftLessThanRight(e, s[0])
  {
    forall e | e in multiset(s[..n])
      ensures !LeftLessThanRight(e, s[0])
    {
      var j :| 0 <= j < n && s[j] == e;
      HeapRootIsLeast(s, n, j);
    }
  }

  /** EventPop moves the last event into slot 0 and shrinks the heap:
      the first slot is then the only defect, and exactly the old first
      event has left the multiset. */
  lemma PopShape(s: seq<FortuneEvent>, c: int)
    requires 1 < c <= |s| && HeapOrdered(s, c)
    ensures HeapExceptDown(s[0 := s[c - 1]], c - 1, 0)
    ensures multiset(s[0 := s[c - 1]][..c - 1]) == multiset(s[..c]) - multiset{s[0]}
  {
    var t := s[0 := s[c - 1]];
    forall i | 0 < i < c - 1 && ParentIndex(i) != 0
      ensures !LeftLessThanRight(t[i], t[ParentIndex(i)])
    {
      assert t[i] == s[i] && t[ParentIndex(i)] == s[ParentIndex(i)];
    }
    assert s[..c] == [s[0]] + s[1..c - 1] + [s[c - 1]];
    assert t[..c - 1] == [s[c - 1]] + s[1..c - 1];
  }

  /** EventRemove's swap of slot i with the last slot, then the shrink:
      exactly s[i] leaves the multiset, the tail beyond the new count keeps
      the moved events, and the precondition of the percolation chosen by
      comparing slot i with its parent holds. */
  lemma RemoveShape(s: seq<FortuneEvent>, i: int, c: int)
    requires 0 <= i < c <= |s| && HeapOrdered(s, c)
    ensures var t := Swapped(s, i, c - 1);
      multiset(t[..c - 1]) == multiset(s[..c]) - multiset{s[i]} &&
      (LeftLessThanRight(t[i], t[ParentIndex(i)]) ==> HeapExceptUp(t, c - 1, i)) &&
      (!LeftLessThanRight(t[i], t[ParentIndex(i)]) ==> HeapExceptDown(t, c - 1, i))
  {
    RemoveMultiset(s, i, c);
    var t := Swapped(s, i, c - 1);
    if i < c - 1 {
      RemoveOrder(s, c, i);
    } else {
      assert t[..c - 1] == s[..c - 1];
      forall j | 0 < j < c - 1
        ensures !LeftLessThanRight(t[j], t[ParentIndex(j)])
      {
        assert t[j] == s[j] && t[ParentIndex(j)] == s[ParentIndex(j)];
      }
    }
  }

  /** IndexOfId is characterised by its ensures. */
  lemma IndexOfIdUnique(s: seq<FortuneEvent>, id: int, k: int)
    requires -1 <= k < |s|
    requires k >= 0 ==> s[k].id == id && forall j :: 0 <= j < k ==> s[j].id != id
    requires k == -1 ==> forall j :: 0 <= j < |s| ==> s[j].id != id
    ensures k == IndexOfId(s, id)
  {
  }

  /** Swapping slot i with the last of the first c slots and dropping the
      last removes exactly s[i] from the queued multiset. */
  lemma RemoveMultiset(s: seq<FortuneEvent>, i: int, c: int)
    requires 0 <= i < c <= |s|
    ensures multiset(Swapped(s, i, c - 1)[..c - 1]) == multiset(s[..c]) - multiset{s[i]}
  {
    var t := Swapped(s, i, c - 1);
    SwappedPermutes(s, i, c - 1, c);
    assert t[..c] == t[..c - 1] + [t[c - 1]];
    assert t[c - 1] == s[i];
  }

  /** After the swap in EventRemove, the moved event x at slot i is the only
      possible defect: whichever way it goes, the matching precondition of
      PercolateUp or PercolateDown holds. */
  lemma RemoveOrder(s: seq<FortuneEvent>, c: int, i: int)
    requires 0 <= i < c - 1 && c <= |s| && HeapOrdered(s, c)
    ensures var t := Swapped(s, i, c - 1);
      (LeftLessThanRight(t[i], t[ParentIndex(i)]) ==> HeapExceptUp(t, c - 1, i)) &&
      (!LeftLessThanRight(t[i], t[ParentIndex(i)]) ==> HeapExceptDown(t, c - 1, i))
  {
    var t := Swapped(s, i, c - 1);
    var n := c - 1;
    var p := ParentIndex(i);
    if 0 < i && 2 * i + 1 < n {
      assert ParentIndex(2 * i + 1) == i;
      assert !LeftLessThanRight(s[i], s[p]);
    }
    if 0 < i && 2 * i + 2 < n {
      assert ParentIndex(2 * i + 2) == i;
      assert !LeftLessThanRight(s[i], s[p]);
    }
    if LeftLessThanRight(t[i], t[p]) {
      forall j | 0 < j < n && j != i
        ensures !LeftLessThanRight(t[j], t[ParentIndex(j)])
      {
        if ParentIndex(j) == i {
          assert !LeftLessThanRight(s[j], s[i]);
          assert !LeftLessThanRight(s[i], s[p]);
        }
      }
    }
  }
}
