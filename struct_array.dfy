/** StructList4 (Assets/Voronoi/Helpers/StructArray.cs): a list of at most
    four values kept in four fields. */
module StructArray {
  import opened Wrappers
  import Collections

  class StructList4<T(0)> {
    var v0: T
    var v1: T
    var v2: T
    var v3: T
    var Length: int

    /** The four slots, used or not. */
    function Slots(): (s: seq<T>)
      reads this
      ensures |s| == 4 && s[0] == v0 && s[1] == v1 && s[2] == v2 && s[3] == v3
    {
      [v0, v1, v2, v3]
    }

    /** Length stays within the four slots. */
    predicate Valid()
      reads this
    {
      0 <= Length <= 4
    }

    /** The list's elements: the first Length slots. */
    function Contents(): (s: seq<T>)
      reads this
      requires Valid()
      ensures |s| == Length
      ensures forall k :: 0 <= k < Length ==> s[k] == Slots()[k]
    {
      Slots()[..Length]
    }

    /** The default value of the struct: empty. */
    constructor ()
      ensures Valid() && Length == 0 && Contents() == []
    {
      Length := 0;
    }

    /** Add: writes slot Length and grows by one; at Length 4 (or any value
        outside 0..3) it throws and changes nothing. */
    method Add(v: T) returns (o: Outcome)
      modifies this
      ensures o.Pass? <==> 0 <= old(Length) <= 3
      ensures o.Pass? ==> Length == old(Length) + 1 && Slots() == old(Slots())[old(Length) := v]
      ensures o.Fail? ==> Length == old(Length) && Slots() == old(Slots())
      ensures old(Valid()) ==> Valid()
      ensures old(Valid()) && o.Pass? ==> Contents() == old(Contents()) + [v]
    {
      if Length == 0 {
        v0 := v;
      } else if Length == 1 {
        v1 := v;
      } else if Length == 2 {
        v2 := v;
      } else if Length == 3 {
        v3 := v;
      } else {
        return Fail("index out of range");
      }
      Length := Length + 1;
      o := Pass;
    }

    /** The indexer: any of the four slots, whatever Length is; it throws
        for any other index. */
    function Get(index: int): (r: Result<T>)
      reads this
      ensures r.Ok? <==> 0 <= index <= 3
      ensures r.Ok? ==> r.value == Slots()[index]
    {
      if index == 0 then Ok(v0)
      else if index == 1 then Ok(v1)
      else if index == 2 then Ok(v2)
      else if index == 3 then Ok(v3)
      else Err("index out of range")
    }

    /** RemoveAtSwapBack: with at most one element the list is emptied
        whatever the index; otherwise the last element is copied into slot
        `index` and the list shrinks by one, or the call throws when the
        index is not a slot. */
    method RemoveAtSwapBack(index: int) returns (o: Outcome)
      requires Valid()
      modifies this
      ensures Valid()
      ensures o.Fail? <==> old(Length) > 1 && !(0 <= index <= 3)
      ensures old(Length) <= 1 ==> Length == 0 && Slots() == old(Slots())
      ensures old(Length) > 1 && o.Pass? ==>
        Length == old(Length) - 1 && Slots() == old(Slots())[index := old(Slots())[old(Length) - 1]]
      ensures o.Fail? ==> Length == old(Length) && Slots() == old(Slots())
      ensures 0 <= index < old(Length) ==> Contents() == Collections.RemoveAtSwapBack(old(Contents()), index)
    {
      if Length <= 1 {
        Length := 0;
        return Pass;
      }
      var last := Get(Length - 1);
      if index == 0 {
        v0 := last.value;
      } else if index == 1 {
        v1 := last.value;
      } else if index == 2 {
        v2 := last.value;
      } else if index == 3 {
        v3 := last.value;
      } else {
        return Fail("index out of range");
      }
      Length := Length - 1;
      o := Pass;
    }
  }

  /** After a successful Add, reading index Length - 1 gives the added
      value back. */
  method AddThenRead<T(0)>(list: StructList4<T>, v: T) returns (o: Outcome, read: Result<T>)
    requires list.Valid()
    modifies list
    ensures o.Pass? <==> old(list.Length) < 4
    ensures o.Pass? ==> read == Ok(v)
    ensures list.Valid() && list.Length <= 4
  {
    o := list.Add(v);
    read := list.Get(list.Length - 1);
  }
}
