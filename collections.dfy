/** The Unity native containers the core relies on, reduced to values:
    NativeList as a sequence and NativeMultiHashMap<int, int> as the
    sequence of its (key, value) entries, newest first. */
module Collections {

  /** NativeList.RemoveAtSwapBack: the last element moves into slot `i` and
      the list shrinks by one. */
  function RemoveAtSwapBack<T>(s: seq<T>, i: nat): (r: seq<T>)
    requires i < |s|
    ensures |r| == |s| - 1
    ensures multiset(r) == multiset(s) - multiset{s[i]}
    ensures forall k :: 0 <= k < |r| && k != i ==> r[k] == s[k]
    ensures i < |r| ==> r[i] == s[|s| - 1]
  {
    SwapBackMultiset(s, i);
    s[i := s[|s| - 1]][..|s| - 1]
  }

  lemma SwapBackMultiset<T>(s: seq<T>, i: nat)
    requires i < |s|
    ensures multiset(s[i := s[|s| - 1]][..|s| - 1]) == multiset(s) - multiset{s[i]}
  {
    var n := |s|;
    var r := s[i := s[n - 1]][..n - 1];
    if i == n - 1 {
      assert s == r + [s[i]];
    } else {
      assert s == s[..i] + [s[i]] + s[i + 1..n - 1] + [s[n - 1]];
      assert r == s[..i] + [s[n - 1]] + s[i + 1..n - 1];
    }
  }

  /** Removing the last slot by swap-back drops the last element. */
  lemma SwapBackLast<T>(s: seq<T>)
    requires |s| > 0
    ensures RemoveAtSwapBack(s, |s| - 1) == s[..|s| - 1]
  {
  }

  /** Removing slot i by swap-back leaves the prefix before i alone and
      the multiset from i onwards equal to the old one after i. */
  lemma SwapBackSuffix<T>(s: seq<T>, i: nat)
    requires i < |s|
    ensures RemoveAtSwapBack(s, i)[..i] == s[..i]
    ensures multiset(RemoveAtSwapBack(s, i)[i..]) == multiset(s[i + 1..])
  {
    var n := |s|;
    var r := RemoveAtSwapBack(s, i);
    assert r[..i] == s[..i];
    if i < n - 1 {
      assert r[i..] == [s[n - 1]] + s[i + 1..n - 1];
      assert s[i + 1..] == s[i + 1..n - 1] + [s[n - 1]];
    }
  }

  /** A NativeMultiHashMap<int, int>: its entries, newest first, because an
      added entry goes to the head of its bucket chain. */
  type MultiMap = seq<(int, int)>

  /** NativeMultiHashMap.Add. */
  function MultiAdd(m: MultiMap, key: int, value: int): (r: MultiMap)
    ensures |r| == |m| + 1 && r[0] == (key, value) && r[1..] == m
  {
    [(key, value)] + m
  }

  /** The values stored under `key`, in the order the enumerator of the map
      yields them (newest first). */
  function ValuesFor(m: MultiMap, key: int): (r: seq<int>)
    ensures |r| <= |m|
    ensures forall v :: v in r <==> (key, v) in m
  {
    if m == [] then []
    else if m[0].0 == key then [m[0].1] + ValuesFor(m[1..], key)
    else ValuesFor(m[1..], key)
  }

  /** Adding under `key` puts the value first among that key's values and
      does not touch the values of any other key. */
  lemma {:induction false} ValuesForAdd(m: MultiMap, key: int, value: int, other: int)
    ensures ValuesFor(MultiAdd(m, key, value), key) == [value] + ValuesFor(m, key)
    ensures other != key ==> ValuesFor(MultiAdd(m, key, value), other) == ValuesFor(m, other)
  {
    assert MultiAdd(m, key, value)[1..] == m;
  }
}
