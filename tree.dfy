/** The threaded red-black tree of the beach line over parallel index
    arrays. Assets/Voronoi/Handlers/RedBlackTree.cs passes the arrays by
    reference to static methods, Assets/Voronoi/Structures/RedBlackTree.cs
    keeps them as the fields of a struct and Assets/Voronoi/Handlers/RedBlueTree.cs
    is a third copy; the three are the same code line for line, and this
    class models them once. The ghost fields explain the arrays: `sq` is the
    in-order sequence of the nodes in the tree and TreeState.Inv says how
    the links, the previous/next list and the colours agree with it. */
module RedBlackTree {
  import opened TreeState
  import opened TreeRotate
  import opened TreeInsert
  import opened TreeFixup
  import opened TreeLink
  import opened TreeGrow
  import opened TreeShrink
  import opened TreeSplice
  import opened TreeSucc
  import opened TreeErase
  import opened TreeEraseRight

  class Tree {
    const value: array<int>
    const left: array<int>
    const right: array<int>
    const parent: array<int>
    const previous: array<int>
    const next: array<int>
    const red: array<bool>
    var count: int
    var root: int
    ghost var sq: seq<int>
    ghost var pos: seq<int>
    ghost var lo: seq<int>
    ghost var hi: seq<int>
    ghost var bh: seq<int>

    /** The arrays and the ghost bookkeeping as one value. */
    ghost function St(): State
      reads this, left, right, parent, previous, next, red
    {
      State(left[..], right[..], parent[..], previous[..], next[..], red[..],
            root, count, sq, pos, lo, hi, bh)
    }

    /** The six index arrays are distinct, and all seven arrays have one
        slot per node. */
    ghost predicate Arrays()
    {
      value != left && value != right && value != parent && value != previous && value != next &&
      left != right && left != parent && left != previous && left != next &&
      right != parent && right != previous && right != next &&
      parent != previous && parent != next && previous != next &&
      value.Length == left.Length && right.Length == left.Length && parent.Length == left.Length &&
      previous.Length == left.Length && next.Length == left.Length && red.Length == left.Length
    }

    /** A red-black tree whose previous/next list is its in-order sequence. */
    ghost predicate Valid()
      reads this, left, right, parent, previous, next, red
    {
      Arrays() && Inv(St())
    }

    /** Assets/Voronoi/Structures/RedBlackTree.cs:17-28. The arrays come
        zero-filled, as freshly allocated native arrays are; count is 0 and
        root -1. All-zero links are not yet the links of an empty tree
        (they should be -1): Reset makes one. */
    constructor (capacity: nat)
      ensures Arrays() && value.Length == capacity && count == 0 && root == -1
      ensures forall i :: 0 <= i < capacity ==>
        value[i] == 0 && left[i] == 0 && right[i] == 0 && parent[i] == 0 &&
        previous[i] == 0 && next[i] == 0 && !red[i]
      ensures fresh(value) && fresh(left) && fresh(right) && fresh(parent) &&
        fresh(previous) && fresh(next) && fresh(red)
    {
      value := new int[capacity](_ => 0);
      left := new int[capacity](_ => 0);
      right := new int[capacity](_ => 0);
      parent := new int[capacity](_ => 0);
      previous := new int[capacity](_ => 0);
      next := new int[capacity](_ => 0);
      red := new bool[capacity](_ => false);
      count := 0;
      root := -1;
      sq := [];
      pos := seq(capacity, _ => 0);
      lo := seq(capacity, _ => 0);
      hi := seq(capacity, _ => 0);
      bh := seq(capacity, _ => 0);
    }

    /** Assets/Voronoi/Structures/RedBlackTree.cs:30-43: every value and
        link slot becomes -1, the colours stay as they are, and the tree is
        the empty tree. */
    method Reset()
      requires Arrays()
      modifies this, value, left, right, parent, previous, next
      ensures Valid() && count == 0 && root == -1 && sq == []
      ensures forall i :: 0 <= i < value.Length ==>
        value[i] == -1 && left[i] == -1 && right[i] == -1 && parent[i] == -1 &&
        previous[i] == -1 && next[i] == -1
      ensures red[..] == old(red[..])
    {
      var i := 0;
      while i < value.Length
        invariant 0 <= i <= value.Length
        invariant forall j :: 0 <= j < i ==>
          value[j] == -1 && left[j] == -1 && right[j] == -1 && parent[j] == -1 &&
          previous[j] == -1 && next[j] == -1
      {
        value[i] := -1;
        left[i] := -1;
        right[i] := -1;
        parent[i] := -1;
        previous[i] := -1;
        next[i] := -1;
        i := i + 1;
      }
      count := 0;
      root := -1;
      sq := [];
      pos := seq(value.Length, _ => 0);
      lo := seq(value.Length, _ => 0);
      hi := seq(value.Length, _ => 0);
      bh := seq(value.Length, _ => 0);
    }

    /** Lines 298-304: the first node of the subtree at node in in-order
        order, or -1 for -1. Only the left links are read, so the answer
        is stated for any tree state s whose left links are the array's. */
    method GetFirst(node: int, ghost s: State) returns (first: int)
      requires Struct(s) && s.left == left[..] && (node == -1 || Live(s, node))
      ensures node == -1 ==> first == -1
      ensures node != -1 ==>
        0 <= s.lo[node] < |s.sq| && first == s.sq[s.lo[node]] &&
        Live(s, first) && s.left[first] == -1 && s.pos[first] == s.lo[node]
    {
      if node < 0 {
        return -1;
      }
      LinksInRange(s, node);
      first := node;
      while left[first] > -1
        invariant Live(s, first) && NodeLinked(s, first) && s.lo[first] == s.lo[node]
        decreases s.pos[first] - s.lo[first]
      {
        LinksInRange(s, first);
        first := left[first];
      }
    }

    /** Lines 306-311: the last node of the subtree at node, or -1 for -1. */
    method GetLast(node: int, ghost s: State) returns (last: int)
      requires Struct(s) && s.right == right[..] && (node == -1 || Live(s, node))
      ensures node == -1 ==> last == -1
      ensures node != -1 ==>
        0 <= s.hi[node] < |s.sq| && last == s.sq[s.hi[node]] &&
        Live(s, last) && s.right[last] == -1 && s.pos[last] == s.hi[node]
    {
      if node < 0 {
        return -1;
      }
      LinksInRange(s, node);
      last := node;
      while right[last] > -1
        invariant Live(s, last) && NodeLinked(s, last) && s.hi[last] == s.hi[node]
        decreases s.hi[last] - s.pos[last]
      {
        LinksInRange(s, last);
        last := right[last];
      }
    }

    /** Lines 324-332 and 341-360, and the same step of the removal at
        lines 162-172: q takes p's place below par, or becomes the root when
        par is -1. */
    method ReplaceChild(par: int, p: int, q: int)
      requires Arrays() && -1 <= par < left.Length
      modifies this`root, left, right
      ensures par > -1 && old(left[par]) == p ==>
        left[..] == old(left[..])[par := q] && right[..] == old(right[..])
      ensures par > -1 && old(left[par]) != p ==>
        right[..] == old(right[..])[par := q] && left[..] == old(left[..])
      ensures par > -1 ==> root == old(root)
      ensures par == -1 ==> root == q && left[..] == old(left[..]) && right[..] == old(right[..])
    {
      if par > -1 {
        if left[par] == p {
          left[par] := q;
        } else {
          right[par] := q;
        }
      } else {
        root := q;
      }
    }

    /** Lines 313-339: the right child q of node takes its place, as the
        transition TreeRotate.RotL; TreeRotate.RotLStruct proves that it
        keeps the shape invariant and the in-order sequence. */
    method RotateLeft(node: int)
      requires Arrays() && CanRotL(St(), node)
      modifies this, left, right, parent
      ensures left[..] == RotL(old(St()), node).left && right[..] == RotL(old(St()), node).right
      ensures parent[..] == RotL(old(St()), node).parent
      ensures red[..] == old(red[..]) && previous[..] == old(previous[..]) && next[..] == old(next[..])
      ensures St() == RotL(old(St()), node)
    {
      var p := node;
      var q := right[node];
      var par := parent[p];
      ReplaceChild(par, p, q);
      parent[q] := par;
      parent[p] := q;
      right[p] := left[q];
      if right[p] > -1 {
        parent[right[p]] := p;
      }
      left[q] := p;
      lo := lo[q := lo[p]];
      hi := hi[q := hi[p]][p := pos[q] - 1];
    }

    /** Lines 341-368: the mirror image, TreeRotate.RotR. */
    method RotateRight(node: int)
      requires Arrays() && CanRotR(St(), node)
      modifies this, left, right, parent
      ensures left[..] == RotR(old(St()), node).left && right[..] == RotR(old(St()), node).right
      ensures parent[..] == RotR(old(St()), node).parent
      ensures red[..] == old(red[..]) && previous[..] == old(previous[..]) && next[..] == old(next[..])
      ensures St() == RotR(old(St()), node)
    {
      var p := node;
      var q := left[node];
      var par := parent[p];
      ReplaceChild(par, p, q);
      parent[q] := par;
      parent[p] := q;
      left[p] := right[q];
      if left[p] > -1 {
        parent[left[p]] := p;
      }
      right[q] := p;
      lo := lo[q := lo[p]][p := pos[q] + 1];
      hi := hi[q := hi[p]];
    }

    /** Lines 8-129: the new node takes slot count and value arc, goes just
        after node in the previous/next list and in the in-order sequence
        (first when node is -1), and the tree is rebalanced. */
    method InsertTreeNode(node: int, arc: int) returns (successor: int)
      requires Valid() && count < left.Length && (node == -1 || Live(St(), node))
      modifies this, value, left, right, parent, previous, next, red
      ensures Valid() && successor == old(count) && count == old(count) + 1
      ensures value[..] == old(value[..])[successor := arc]
      ensures node != -1 ==>
        var k := old(pos[node]) + 1;
        sq == old(sq)[..k] + [successor] + old(sq)[k..]
      ensures node == -1 ==> sq == [successor] + old(sq)
    {
      ghost var s := St();
      successor := count;
      value[successor] := arc;
      count := count + 1;
      var par: int;
      if node > -1 {
        par := LinkAfter(node, successor, s);
      } else if root > -1 {
        par := LinkFirst(successor, s);
      } else {
        root := successor;
        par := -1;
        parent[successor] := par;
        red[successor] := true;
        Grew(s, 0, 0, 0);
        LinkRoot(s, St());
        assert sq == [successor] + s.sq;
      }
      Rebalance(successor, par);
    }

    /** The arrays show state s, except that count has moved on to the new
        slot. */
    ghost predicate Claimed(s: State)
      reads this, left, right, parent, previous, next, red
    {
      left[..] == s.left && right[..] == s.right && parent[..] == s.parent && red[..] == s.red &&
      previous[..] == s.previous && next[..] == s.next && root == s.root && count == s.count + 1
    }

    /** Lines 28-47 and 68-69: x goes in just after node, as its right child
        or as the left child of the first node of its right subtree. */
    method LinkAfter(node: int, x: int, ghost s: State) returns (par: int)
      requires Arrays() && Inv(s) && Live(s, node) && x == s.count < |s.left| && Claimed(s)
      modifies this, left, right, parent, previous, next, red
      ensures FixInv(St(), x) && par == parent[x] && count == s.count + 1
      ensures var k := s.pos[node] + 1; sq == s.sq[..k] + [x] + s.sq[k..]
    {
      ThreadReady(s, node);
      LinksInRange(s, node);
      ThreadIn(node, x);
      if right[node] > -1 {
        par := GetFirst(right[node], s);
        AdoptLeft(node, par, x, s);
      } else {
        par := AdoptRight(node, x, s);
      }
    }

    /** Claimed(s), after the list links of lines 30-34. */
    ghost predicate ClaimedAfter(s: State, node: int, x: int)
      requires WF(s) && 0 <= node < |s.left| && 0 <= x < |s.left| && Ref(s, s.next[node])
      reads this, left, right, parent, previous, next, red
    {
      left[..] == s.left && right[..] == s.right && parent[..] == s.parent && red[..] == s.red &&
      next[..] == s.next[x := s.next[node]][node := x] &&
      previous[..] == (if s.next[node] > -1 then s.previous[x := node][s.next[node] := x] else s.previous[x := node]) &&
      root == s.root && count == s.count + 1
    }

    /** Lines 37-40 and 68-69: x becomes the left child of m, the first
        node of node's right subtree. */
    method AdoptLeft(node: int, m: int, x: int, ghost s: State)
      requires Arrays() && Inv(s) && Live(s, node) && x == s.count < |s.left| && Ref(s, s.next[node])
      requires Live(s, m) && s.left[m] == -1 && s.pos[m] == s.pos[node] + 1 && ClaimedAfter(s, node, x)
      modifies this, left, parent, red
      ensures FixInv(St(), x) && m == parent[x] && count == s.count + 1
      ensures var k := s.pos[node] + 1; sq == s.sq[..k] + [x] + s.sq[k..]
    {
      left[m] := x;
      parent[x] := m;
      red[x] := true;
      ghost var k := s.pos[m];
      Grew(s, k, k + 1, k);
      LinkLeftFields(s, St(), node, m);
    }

    /** Lines 42-46 and 68-69: x becomes the right child of node. */
    method AdoptRight(node: int, x: int, ghost s: State) returns (par: int)
      requires Arrays() && Inv(s) && Live(s, node) && x == s.count < |s.left| && s.right[node] == -1
      requires Ref(s, s.next[node]) && ClaimedAfter(s, node, x)
      modifies this, right, parent, red
      ensures FixInv(St(), x) && par == parent[x] && count == s.count + 1
      ensures var k := s.pos[node] + 1; sq == s.sq[..k] + [x] + s.sq[k..]
    {
      par := node;
      right[par] := x;
      parent[x] := par;
      red[x] := true;
      ghost var k := s.pos[node] + 1;
      Grew(s, k, k, k - 1);
      LinkRightFields(s, St(), node);
    }

    /** Lines 48-58 and 68-69: x goes in first, as the left child of the
        first node. */
    method LinkFirst(x: int, ghost s: State) returns (par: int)
      requires Arrays() && Inv(s) && s.root != -1 && x == s.count < |s.left| && Claimed(s)
      modifies this, left, parent, previous, next, red
      ensures FixInv(St(), x) && par == parent[x] && count == s.count + 1
      ensures sq == [x] + s.sq
    {
      par := GetFirst(root, s);
      next[x] := par;
      previous[par] := x;
      left[par] := x;
      parent[x] := par;
      red[x] := true;
      Grew(s, 0, 1, 0);
      LinkLeftFields(s, St(), -1, par);
      assert sq == [x] + s.sq;
    }

    /** The bookkeeping of the insertion of slot s.count at place k of the
        in-order sequence (see TreeGrow.Grown). */
    ghost method Grew(s: State, k: int, loK: int, hiK: int)
      requires WF(s) && s.count < |s.left| && 0 <= k <= |s.sq|
      modifies this
      ensures sq == s.sq[..k] + [s.count] + s.sq[k..] && pos == ShiftAll(s.pos, k)[s.count := k]
      ensures lo == ShiftAll(s.lo, loK)[s.count := k] && hi == ShiftAll(s.hi, hiK)[s.count := k]
      ensures bh == s.bh[s.count := 0]
      ensures count == old(count) && root == old(root)
    {
      sq, pos, lo, hi, bh := s.sq[..k] + [s.count] + s.sq[k..], ShiftAll(s.pos, k)[s.count := k],
        ShiftAll(s.lo, loK)[s.count := k], ShiftAll(s.hi, hiK)[s.count := k], s.bh[s.count := 0];
    }

    /** Lines 30-34: x goes in between node and its successor in the list. */
    method ThreadIn(node: int, x: int)
      requires Arrays() && 0 <= node < left.Length && 0 <= x < left.Length && node != x
      requires -1 <= next[node] < left.Length && next[node] != x
      modifies previous, next
      ensures next[..] == old(next[..])[x := old(next[node])][node := x]
      ensures previous[..] == if old(next[node]) > -1 then old(previous[..])[x := node][old(next[node]) := x]
        else old(previous[..])[x := node]
    {
      previous[x] := node;
      next[x] := next[node];
      if next[node] > -1 {
        previous[next[node]] := x;
      }
      next[node] := x;
    }

    /** Lines 71-127: while the parent of the red node x is red, recolour
        or rotate, which moves the red-red edge up or removes it; then
        paint the root black. */
    method Rebalance(node: int, par: int)
      requires Arrays() && FixInv(St(), node) && par == parent[node]
      modifies this, left, right, parent, red
      ensures Valid() && sq == old(sq) && count == old(count)
    {
      var x, p := node, par;
      LinksInRange(St(), x);
      while p > -1 && red[p]
        invariant FixInv(St(), x) && p == parent[x] && -1 <= p < left.Length
        invariant sq == old(sq) && count == old(count)
        decreases (if ParentRed(St(), x) then 1 else 0), |sq| - Width(St(), x)
      {
        x := FixStep(x, p);
        LinksInRange(St(), x);
        p := parent[x];
      }
      PaintRoot(x);
    }

    /** Lines 76-124: one round of the loop, on the side p hangs from. */
    method FixStep(x: int, p: int) returns (y: int)
      requires Arrays() && FixInv(St(), x) && ParentRed(St(), x) && p == parent[x]
      modifies this, left, right, parent, red
      ensures FixInv(St(), y) && sq == old(sq) && count == old(count)
      ensures ParentRed(St(), y) ==> old(Width(St(), x)) < Width(St(), y)
    {
      Climb(St(), x);
      var g := parent[p];
      if p == left[g] {
        y := FixLeft(x, p, g);
      } else {
        y := FixRight(x, p, g);
      }
    }

    /** Line 125: once no red-red edge is left, the root turns black. */
    method PaintRoot(x: int)
      requires Arrays() && FixInv(St(), x) && !ParentRed(St(), x)
      modifies this, red
      ensures Valid() && sq == old(sq) && count == old(count)
    {
      BlackenRoot(St(), x);
      red[root] := false;
    }

    /** Lines 78-100: the parent p is the left child of the grandparent g. */
    method FixLeft(x: int, p: int, g: int) returns (y: int)
      requires Arrays() && FixInv(St(), x) && ParentRed(St(), x) && p == parent[x]
      requires 0 <= p < left.Length && g == parent[p] && 0 <= g < left.Length && left[g] == p
      modifies this, left, right, parent, red
      ensures FixInv(St(), y) && sq == old(sq) && count == old(count)
      ensures ParentRed(St(), y) ==> old(Width(St(), x)) < Width(St(), y)
    {
      Climb(St(), x);
      LinksInRange(St(), g);
      var a := right[g];
      if a > -1 && red[a] {
        FlipColours(x, p, a, g);
        y := g;
      } else {
        y := TurnLeft(x, p, g);
      }
    }

    /** Lines 101-124: the mirror image, p the right child of g. */
    method FixRight(x: int, p: int, g: int) returns (y: int)
      requires Arrays() && FixInv(St(), x) && ParentRed(St(), x) && p == parent[x]
      requires 0 <= p < left.Length && g == parent[p] && 0 <= g < left.Length && left[g] != p
      modifies this, left, right, parent, red
      ensures FixInv(St(), y) && sq == old(sq) && count == old(count)
      ensures ParentRed(St(), y) ==> old(Width(St(), x)) < Width(St(), y)
    {
      Climb(St(), x);
      LinksInRange(St(), g);
      var a := left[g];
      if a > -1 && red[a] {
        FlipColours(x, p, a, g);
        y := g;
      } else {
        y := TurnRight(x, p, g);
      }
    }

    /** Lines 80-86 and 103-109: with a red aunt a, p and a turn black and g
        red, and the red-red edge can only be above g. */
    method FlipColours(x: int, p: int, a: int, g: int)
      requires Arrays() && FixInv(St(), x) && ParentRed(St(), x) && p == parent[x] && g == parent[p]
      requires 0 <= g < left.Length && a == Aunt(St(), p, g) && IsRed(St(), a)
      modifies this, red
      ensures FixInv(St(), g) && sq == old(sq) && count == old(count)
      ensures old(Width(St(), x)) < Width(St(), g)
    {
      ghost var s := St();
      RecolourUp(s, x, p, g, a);
      red[p] := false;
      red[a] := false;
      red[g] := true;
      bh := bh[g := bh[g] + 1];
      assert St() == Recolour(s, p, a, g);
    }

    /** Lines 88-98: a black aunt; an inner x is first rotated outside. */
    method TurnLeft(x: int, p: int, g: int) returns (y: int)
      requires Arrays() && FixInv(St(), x) && ParentRed(St(), x) && p == parent[x] && g == parent[p]
      requires 0 <= g < left.Length && left[g] == p && !IsRed(St(), right[g])
      modifies this, left, right, parent, red
      ensures FixInv(St(), y) && !ParentRed(St(), y) && sq == old(sq) && count == old(count)
    {
      Climb(St(), x);
      y := x;
      var q := p;
      if y == right[q] {
        RotateParentL(St(), y, q, g);
        RotateLeft(q);
        y := q;
        q := parent[y];
      }
      PivotRight(y, q, g);
    }

    /** Lines 111-122: the mirror image. */
    method TurnRight(x: int, p: int, g: int) returns (y: int)
      requires Arrays() && FixInv(St(), x) && ParentRed(St(), x) && p == parent[x] && g == parent[p]
      requires 0 <= g < left.Length && right[g] == p && !IsRed(St(), left[g])
      modifies this, left, right, parent, red
      ensures FixInv(St(), y) && !ParentRed(St(), y) && sq == old(sq) && count == old(count)
    {
      Climb(St(), x);
      y := x;
      var q := p;
      if y == left[q] {
        RotateParentR(St(), y, q, g);
        RotateRight(q);
        y := q;
        q := parent[y];
      }
      PivotLeft(y, q, g);
    }

    /** Lines 95-97: x and p on g's left, outside: p turns black, g red, and
        g is rotated down to the right, which leaves no red-red edge. */
    method PivotRight(x: int, p: int, g: int)
      requires Arrays() && FixInv(St(), x) && ParentRed(St(), x) && p == parent[x] && g == parent[p]
      requires 0 <= g < left.Length && left[g] == p && !IsRed(St(), right[g]) && left[p] == x
      modifies this, left, right, parent, red
      ensures FixInv(St(), x) && !ParentRed(St(), x) && sq == old(sq) && count == old(count)
    {
      ghost var s := St();
      RotateGrandL(s, x, p, g);
      red[p] := false;
      red[g] := true;
      assert St() == Paint(s, p, g);
      RotateRight(g);
    }

    /** Lines 119-121: the mirror image. */
    method PivotLeft(x: int, p: int, g: int)
      requires Arrays() && FixInv(St(), x) && ParentRed(St(), x) && p == parent[x] && g == parent[p]
      requires 0 <= g < left.Length && right[g] == p && !IsRed(St(), left[g]) && right[p] == x
      modifies this, left, right, parent, red
      ensures FixInv(St(), x) && !ParentRed(St(), x) && sq == old(sq) && count == old(count)
    {
      ghost var s := St();
      RotateGrandR(s, x, p, g);
      red[p] := false;
      red[g] := true;
      assert St() == Paint(s, p, g);
      RotateLeft(g);
    }

    /** Lines 131-296: node leaves the previous/next list and the tree, and
        the tree is a red-black tree again. The slot keeps its value and
        its stale links; count does not go down. */
    method RemoveTreeNode(node: int)
      requires Valid() && Live(St(), node)
      modifies this, left, right, parent, previous, next, red
      ensures Valid() && count == old(count)
      ensures var k := old(pos[node]); sq == old(sq)[..k] + old(sq)[k + 1..]
    {
      ghost var s := St();
      var x, p, black := Splice(node, s);
      assert s.sq == old(sq) && s.pos[node] == old(pos[node]);
      if !black {
        RemovedRed(St(), x, p);
        return;
      }
      RemovedBlack(St(), x, p);
      if x > -1 && red[x] {
        Blacken(x, p);
        return;
      }
      Repair(x, p);
    }

    /** Lines 141-145: the list neighbours of z are linked to each other. */
    method Unthread(z: int)
      requires Arrays() && 0 <= z < left.Length
      requires -1 <= previous[z] < left.Length && -1 <= next[z] < left.Length
      modifies previous, next
      ensures next[..] == if old(previous[z]) > -1 then old(next[..])[old(previous[z]) := old(next[z])] else old(next[..])
      ensures previous[..] == if old(next[z]) > -1 then old(previous[..])[old(next[z]) := old(previous[z])] else old(previous[..])
    {
      if next[z] > -1 {
        previous[next[z]] := previous[z];
      }
      if previous[z] > -1 {
        next[previous[z]] := next[z];
      }
    }

    /** Lines 141-172: z leaves the list, and the node y that is to take
        its place (its only child, -1, or its successor) takes it below z's
        parent zp; l and r are z's children. */
    method Detach(z: int, ghost s: State) returns (y: int, zp: int, l: int, r: int)
      requires Arrays() && s == St() && Struct(s) && Live(s, z)
      requires Ref(s, s.previous[z]) && Ref(s, s.next[z]) && Ref(s, s.parent[z])
      requires Ref(s, s.left[z]) && Ref(s, s.right[z]) && (s.right[z] != -1 ==> Live(s, s.right[z]))
      modifies this`root, left, right, previous, next
      ensures zp == s.parent[z] && l == s.left[z] && r == s.right[z]
      ensures l < 0 ==> y == r
      ensures l > -1 && r < 0 ==> y == l
      ensures l > -1 && r > -1 ==> 0 <= s.lo[r] < |s.sq| && y == s.sq[s.lo[r]] && Live(s, y) && s.left[y] == -1
      ensures St() == DetachTarget(s, z, y)
    {
      Unthread(z);
      zp, l, r := parent[z], left[z], right[z];
      if l < 0 {
        y := r;
      } else if r < 0 {
        y := l;
      } else {
        y := GetFirst(r, s);
      }
      ReplaceChild(zp, z, y);
    }

    /** Lines 141-211: z leaves the list and the tree. x, the node that took
        the place left empty (possibly -1), hangs below p, and black says
        whether the colour that left the tree was black. */
    method Splice(z: int, ghost s: State) returns (x: int, p: int, black: bool)
      requires Valid() && s == St() && Live(s, z)
      modifies this, left, right, parent, previous, next, red
      ensures Arrays() && Removed(St(), x, p, black) && count == s.count
      ensures var k := s.pos[z]; sq == s.sq[..k] + s.sq[k + 1..]
    {
      ListRefs(s, z);
      LinksInRange(s, z);
      var y, par, l, r := Detach(z, s);
      if l > -1 && r > -1 {
        TwoReady(s, z, y);
        x, p, black := SpliceTwo(z, y, l, r, par, s);
      } else {
        OneReadyShape(s, z, y);
        x, p, black := SpliceOne(z, y, par, s);
      }
    }

    /** Lines 202-211: z has at most one child c, which takes z's place
        below z's parent zp; the colour removed is z's. */
    method SpliceOne(z: int, c: int, zp: int, ghost s: State) returns (x: int, p: int, black: bool)
      requires Arrays() && Inv(s) && OneShape(s, z, c) && zp == s.parent[z] && St() == DetachTarget(s, z, c)
      modifies this, parent
      ensures Arrays() && Removed(St(), x, p, black) && count == s.count
      ensures var k := s.pos[z]; sq == s.sq[..k] + s.sq[k + 1..]
    {
      ghost var u := St();
      OneTargetRemoved(s, u, z, c);
      ghost var t := OneTarget(s, u, z, c);
      black := !red[z];
      x, p := c, zp;
      Reattach(x, p, black, t);
    }

    /** Lines 208-211: x, unless it is -1, hangs below p; t is the state
        this leads to. */
    method Reattach(x: int, p: int, ghost black: bool, ghost t: State)
      requires Arrays() && -1 <= x < left.Length && Removed(t, x, p, black)
      requires t.parent == (if x > -1 then parent[..][x := p] else parent[..])
      requires t.left == left[..] && t.right == right[..] && t.red == red[..]
      requires t.previous == previous[..] && t.next == next[..] && t.root == root && t.count == count
      modifies this, parent
      ensures St() == t && Removed(St(), x, p, black)
    {
      if x > -1 {
        parent[x] := p;
      }
      sq, pos, lo, hi, bh := t.sq, t.pos, t.lo, t.hi, t.bh;
    }

    /** Lines 175-201 and 208-211: z has the children zl and zr; its
        successor y takes z's place and colour, and y's right child x takes
        y's old place; the colour removed is y's. */
    method SpliceTwo(z: int, y: int, zl: int, zr: int, zp: int, ghost s: State) returns (x: int, p: int, black: bool)
      requires Arrays() && Inv(s) && TwoShape(s, z, y) && St() == DetachTarget(s, z, y)
      requires zl == s.left[z] && zr == s.right[z] && zp == s.parent[z]
      modifies this, left, right, parent, red
      ensures Arrays() && Removed(St(), x, p, black) && count == s.count
      ensures var k := s.pos[z]; sq == s.sq[..k] + s.sq[k + 1..]
    {
      TwoParents(s, z, y);
      ghost var u := St();
      TwoTargetRemoved(s, u, z, y);
      black := !red[y];
      ghost var t := TwoTarget(s, u, z, y);
      if y != zr {
        x, p := SpliceDeep(z, y, zl, zr, t);
      } else {
        x, p := SpliceNear(z, y, zl, zp, t);
      }
      assert Removed(t, x, p, black);
    }

    /** Lines 177-200 when the successor y lies below z's right child zr:
        y takes z's colour and children, and y's right child x takes y's
        place below y's parent p; t is the state this leads to. */
    method SpliceDeep(z: int, y: int, zl: int, zr: int, ghost t: State) returns (x: int, p: int)
      requires Arrays() && 0 <= z < left.Length && 0 <= y < left.Length
      requires 0 <= zl < left.Length && 0 <= zr < left.Length && zl != y && zl != z
      requires 0 <= parent[y] < left.Length && -1 <= right[y] < left.Length
      requires t.left == left[..][y := zl][parent[y] := right[y]] && t.right == right[..][y := zr]
      requires t.parent == var q := parent[..][zl := y][y := parent[z]][zr := y];
        if right[y] > -1 then q[right[y] := parent[y]] else q
      requires t.red == red[..][y := red[z]] && t.previous == previous[..] && t.next == next[..]
      requires t.root == root && t.count == count
      modifies this, left, right, parent, red
      ensures St() == t && x == old(right[y]) && p == old(parent[y])
    {
      p := GraftTop(z, y, zl);
      x := GraftDown(y, zr, p);
      sq, pos, lo, hi, bh := t.sq, t.pos, t.lo, t.hi, t.bh;
    }

    /** Lines 177-182 of the deep case: y takes z's colour and left child
        zl, and the place of z below z's parent; p is y's old parent. */
    method GraftTop(z: int, y: int, zl: int) returns (p: int)
      requires Arrays() && 0 <= z < left.Length && 0 <= y < left.Length
      requires 0 <= zl < left.Length && zl != y && zl != z
      modifies left, parent, red
      ensures p == old(parent[y]) && red[..] == old(red[..])[y := old(red[z])]
      ensures left[..] == old(left[..])[y := zl] && parent[..] == old(parent[..])[zl := y][y := old(parent[z])]
    {
      red[y] := red[z];
      left[y] := zl;
      parent[zl] := y;
      p := parent[y];
      parent[y] := parent[z];
    }

    /** Lines 183-200 of the deep case: y's right child x takes y's place
        below p, and y takes z's right child zr. */
    method GraftDown(y: int, zr: int, p: int) returns (x: int)
      requires Arrays() && 0 <= y < left.Length && 0 <= zr < left.Length && 0 <= p < left.Length
      requires -1 <= right[y] < left.Length
      modifies left, right, parent
      ensures x == old(right[y]) && left[..] == old(left[..])[p := x] && right[..] == old(right[..])[y := zr]
      ensures parent[..] == if x > -1 then old(parent[..])[zr := y][x := p] else old(parent[..])[zr := y]
    {
      x := right[y];
      left[p] := x;
      right[y] := zr;
      parent[zr] := y;
      if x > -1 {
        parent[x] := p;
      }
    }

    /** Lines 177-200 when the successor y is z's right child: y takes z's
        colour, its left child zl and its place below zp, and keeps its
        right child x; t is the state this leads to. */
    method SpliceNear(z: int, y: int, zl: int, zp: int, ghost t: State) returns (x: int, p: int)
      requires Arrays() && 0 <= z < left.Length && 0 <= y < left.Length
      requires 0 <= zl < left.Length && zl != y && -1 <= right[y] < left.Length
      requires t.left == left[..][y := zl] && t.right == right[..]
      requires t.parent == var q := parent[..][zl := y][y := zp];
        if right[y] > -1 then q[right[y] := y] else q
      requires t.red == red[..][y := red[z]] && t.previous == previous[..] && t.next == next[..]
      requires t.root == root && t.count == count
      modifies this, left, parent, red
      ensures St() == t && x == old(right[y]) && p == y
    {
      red[y] := red[z];
      left[y] := zl;
      parent[zl] := y;
      parent[y] := zp;
      p := y;
      x := right[y];
      if x > -1 {
        parent[x] := p;
      }
      sq, pos, lo, hi, bh := t.sq, t.pos, t.lo, t.hi, t.bh;
    }

    /** Lines 218-222 and 294-295: x, red or the root, turns black, which
        repairs the tree. */
    method Blacken(x: int, p: int)
      requires Arrays() && DelInv(St(), x, p) && (x == root || IsRed(St(), x))
      modifies red
      ensures Valid() && sq == old(sq) && count == old(count)
    {
      ghost var s := St();
      Darkened(s, x, p);
      if x > -1 {
        red[x] := false;
      }
      assert St() == Darken(s, x);
    }

    /** Lines 228-295: while x is black and not the root, the paths through
        it miss one black node; each round either moves x up to its parent
        or repairs the tree and makes x the root. */
    method Repair(x: int, p: int)
      requires Arrays() && DelInv(St(), x, p) && !IsRed(St(), x)
      modifies this, left, right, parent, red
      ensures Valid() && sq == old(sq) && count == old(count)
    {
      var node, par := x, p;
      SpanFits(St(), node);
      while node != root && !(node > -1 && red[node])
        invariant Arrays() && DelInv(St(), node, par) && sq == old(sq) && count == old(count)
        invariant 0 <= Span(St(), node) <= |sq|
        decreases (if node == root then 0 else 1), |sq| - Span(St(), node)
      {
        node, par := RepairStep(node, par);
        SpanFits(St(), node);
      }
      Blacken(node, par);
    }

    /** Lines 232-291: one round, on the side x hangs from. */
    method RepairStep(x: int, p: int) returns (y: int, q: int)
      requires Arrays() && DelInv(St(), x, p) && x != root && !IsRed(St(), x)
      modifies this, left, right, parent, red
      ensures DelInv(St(), y, q) && sq == old(sq) && count == old(count)
      ensures y != root ==> old(Span(St(), x)) < Span(St(), y)
    {
      SibRefs(St(), x, p);
      var w: int, done: bool;
      if x == left[p] {
        w, done := SideLeft(x, p);
      } else {
        w, done := SideRight(x, p);
      }
      if done {
        InvDone(St());
        y, q := root, -1;
      } else {
        y, q := Lift(x, p, w);
      }
    }

    /** Lines 289-291: the black sibling w, whose children are black, turns
        red, and the loop goes on one level up. */
    method Lift(x: int, p: int, w: int) returns (y: int, q: int)
      requires Arrays() && DelInv(St(), x, p) && x != root && !IsRed(St(), x) && 0 <= p < left.Length
      requires 0 <= w < left.Length && w == Sib(St(), x, p) && !red[w]
      requires !IsRed(St(), left[w]) && !IsRed(St(), right[w])
      modifies this, red
      ensures DelInv(St(), y, q) && y == p && Span(St(), x) < Span(St(), y)
      ensures sq == old(sq) && count == old(count) && Span(St(), x) == old(Span(St(), x))
    {
      ghost var s := St();
      PushUp(s, x, p);
      red[w] := true;
      bh := bh[p := bh[p] - 1];
      assert St() == Lighten(s, w, p);
      y, q := p, parent[p];
    }

    /** Lines 234-260: x is p's left child. A red sibling is rotated away
        first; a sibling with a red child ends the loop (done); otherwise
        the sibling w, black with black children, is returned. */
    method SideLeft(x: int, p: int) returns (w: int, done: bool)
      requires Arrays() && DelInv(St(), x, p) && x != root && !IsRed(St(), x)
      requires 0 <= p < left.Length && left[p] == x
      modifies this, left, right, parent, red
      ensures sq == old(sq) && count == old(count)
      ensures done ==> Inv(St())
      ensures !done ==>
        DelInv(St(), x, p) && x != root && !IsRed(St(), x) && 0 <= w < left.Length && w == Sib(St(), x, p) &&
        !red[w] && !IsRed(St(), left[w]) && !IsRed(St(), right[w]) && Span(St(), x) == old(Span(St(), x))
    {
      SibRefs(St(), x, p);
      w := right[p];
      if red[w] {
        TurnSiblingLeft(x, p, w);
      }
      w, done := NephewsLeft(x, p);
    }

    /** Lines 236 and 244-260 once the sibling is black. */
    method NephewsLeft(x: int, p: int) returns (w: int, done: bool)
      requires Arrays() && DelInv(St(), x, p) && x != root && !IsRed(St(), x)
      requires 0 <= p < left.Length && left[p] == x && !IsRed(St(), right[p])
      modifies this, left, right, parent, red
      ensures sq == old(sq) && count == old(count)
      ensures done ==> Inv(St())
      ensures !done ==>
        DelInv(St(), x, p) && x != root && !IsRed(St(), x) && 0 <= w < left.Length && w == Sib(St(), x, p) &&
        !red[w] && !IsRed(St(), left[w]) && !IsRed(St(), right[w]) && Span(St(), x) == old(Span(St(), x))
    {
      SibRefs(St(), x, p);
      w := right[p];
      if (left[w] > -1 && red[left[w]]) || (right[w] > -1 && red[right[w]]) {
        if right[w] < 0 || !red[right[w]] {
          TurnNearLeft(x, p, w);
          w := right[p];
        }
        TurnFarLeft(x, p, w);
        done := true;
      } else {
        done := false;
      }
    }

    /** Lines 237-243: the red sibling w turns black, p red, and p is
        rotated down to the left. */
    method TurnSiblingLeft(x: int, p: int, w: int)
      requires Arrays() && DelInv(St(), x, p) && x != root && !IsRed(St(), x) && 0 <= p < left.Length
      requires left[p] == x && w == right[p] && IsRed(St(), w)
      modifies this, left, right, parent, red
      ensures DelInv(St(), x, p) && x != root && !IsRed(St(), x) && left[p] == x && !IsRed(St(), right[p])
      ensures sq == old(sq) && count == old(count) && Span(St(), x) == old(Span(St(), x))
    {
      ghost var s := St();
      RotateSiblingL(s, x, p);
      red[w] := false;
      red[p] := true;
      assert St() == Paint(s, w, p);
      RotateLeft(p);
    }

    /** Lines 248-254: the red near child of the black sibling w turns
        black, w red, and w is rotated down to the right. */
    method TurnNearLeft(x: int, p: int, w: int)
      requires Arrays() && DelInv(St(), x, p) && x != root && !IsRed(St(), x) && 0 <= p < left.Length
      requires left[p] == x && w == right[p] && 0 <= w < left.Length && !red[w]
      requires IsRed(St(), left[w]) && !IsRed(St(), right[w])
      modifies this, left, right, parent, red
      ensures DelInv(St(), x, p) && x != root && !IsRed(St(), x) && left[p] == x && 0 <= right[p] < left.Length
      ensures !red[right[p]] && IsRed(St(), right[right[p]])
      ensures sq == old(sq) && count == old(count) && Span(St(), x) == old(Span(St(), x))
    {
      ghost var s := St();
      RotateNearL(s, x, p);
      red[left[w]] := false;
      red[w] := true;
      assert St() == Paint(s, s.left[w], w);
      RotateRight(w);
    }

    /** Lines 255-259: the black sibling w, whose far child r is red, takes
        p's colour, p and r turn black, and p is rotated down to the left,
        which repairs the tree. */
    method TurnFarLeft(x: int, p: int, w: int)
      requires Arrays() && DelInv(St(), x, p) && x != root && !IsRed(St(), x) && 0 <= p < left.Length
      requires left[p] == x && w == right[p] && 0 <= w < left.Length && !red[w] && IsRed(St(), right[w])
      modifies this, left, right, parent, red
      ensures Valid() && sq == old(sq) && count == old(count)
    {
      ghost var s := St();
      RotateFarL(s, x, p);
      var r := right[w];
      red[w] := red[p];
      red[p] := false;
      red[r] := false;
      bh := bh[p := bh[p] - 1][w := bh[p]];
      assert St() == Settle(s, p, w, r);
      RotateLeft(p);
    }

    /** Lines 262-288: the mirror image, x on p's right. */
    method SideRight(x: int, p: int) returns (w: int, done: bool)
      requires Arrays() && DelInv(St(), x, p) && x != root && !IsRed(St(), x)
      requires 0 <= p < left.Length && left[p] != x
      modifies this, left, right, parent, red
      ensures sq == old(sq) && count == old(count)
      ensures done ==> Inv(St())
      ensures !done ==>
        DelInv(St(), x, p) && x != root && !IsRed(St(), x) && 0 <= w < left.Length && w == Sib(St(), x, p) &&
        !red[w] && !IsRed(St(), left[w]) && !IsRed(St(), right[w]) && Span(St(), x) == old(Span(St(), x))
    {
      SibRefs(St(), x, p);
      w := left[p];
      if red[w] {
        TurnSiblingRight(x, p, w);
      }
      w, done := NephewsRight(x, p);
    }

    /** Lines 264 and 272-287 once the sibling is black. */
    method NephewsRight(x: int, p: int) returns (w: int, done: bool)
      requires Arrays() && DelInv(St(), x, p) && x != root && !IsRed(St(), x)
      requires 0 <= p < left.Length && left[p] != x && !IsRed(St(), left[p])
      modifies this, left, right, parent, red
      ensures sq == old(sq) && count == old(count)
      ensures done ==> Inv(St())
      ensures !done ==>
        DelInv(St(), x, p) && x != root && !IsRed(St(), x) && 0 <= w < left.Length && w == Sib(St(), x, p) &&
        !red[w] && !IsRed(St(), left[w]) && !IsRed(St(), right[w]) && Span(St(), x) == old(Span(St(), x))
    {
      SibRefs(St(), x, p);
      w := left[p];
      if (left[w] > -1 && red[left[w]]) || (right[w] > -1 && red[right[w]]) {
        if left[w] < 0 || !red[left[w]] {
          TurnNearRight(x, p, w);
          w := left[p];
        }
        TurnFarRight(x, p, w);
        done := true;
      } else {
        done := false;
      }
    }

    /** Lines 265-271: the mirror image of TurnSiblingLeft. */
    method TurnSiblingRight(x: int, p: int, w: int)
      requires Arrays() && DelInv(St(), x, p) && x != root && !IsRed(St(), x) && 0 <= p < left.Length
      requires left[p] != x && w == left[p] && IsRed(St(), w)
      modifies this, left, right, parent, red
      ensures DelInv(St(), x, p) && x != root && !IsRed(St(), x) && right[p] == x && left[p] != x && !IsRed(St(), left[p])
      ensures sq == old(sq) && count == old(count) && Span(St(), x) == old(Span(St(), x))
    {
      ghost var s := St();
      RotateSiblingR(s, x, p);
      red[w] := false;
      red[p] := true;
      assert St() == Paint(s, w, p);
      RotateRight(p);
    }

    /** Lines 275-281: the mirror image of TurnNearLeft. */
    method TurnNearRight(x: int, p: int, w: int)
      requires Arrays() && DelInv(St(), x, p) && x != root && !IsRed(St(), x) && 0 <= p < left.Length
      requires left[p] != x && w == left[p] && 0 <= w < left.Length && !red[w]
      requires IsRed(St(), right[w]) && !IsRed(St(), left[w])
      modifies this, left, right, parent, red
      ensures DelInv(St(), x, p) && x != root && !IsRed(St(), x) && right[p] == x && left[p] != x && 0 <= left[p] < left.Length
      ensures !red[left[p]] && IsRed(St(), left[left[p]])
      ensures sq == old(sq) && count == old(count) && Span(St(), x) == old(Span(St(), x))
    {
      ghost var s := St();
      RotateNearR(s, x, p);
      red[right[w]] := false;
      red[w] := true;
      assert St() == Paint(s, s.right[w], w);
      RotateLeft(w);
    }

    /** Lines 282-286: the mirror image of TurnFarLeft. */
    method TurnFarRight(x: int, p: int, w: int)
      requires Arrays() && DelInv(St(), x, p) && x != root && !IsRed(St(), x) && 0 <= p < left.Length
      requires left[p] != x && w == left[p] && 0 <= w < left.Length && !red[w] && IsRed(St(), left[w])
      modifies this, left, right, parent, red
      ensures Valid() && sq == old(sq) && count == old(count)
    {
      ghost var s := St();
      RotateFarR(s, x, p);
      var r := left[w];
      red[w] := red[p];
      red[p] := false;
      red[r] := false;
      bh := bh[p := bh[p] - 1][w := bh[p]];
      assert St() == Settle(s, p, w, r);
      RotateRight(p);
    }
  }
}
