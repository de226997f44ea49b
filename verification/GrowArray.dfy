/** The growing arrays of the repository: a buffer, a size, and a capacity that doubles when an
    element is pushed on a full buffer. The timer array, the event log, the channel lists and the
    connection table are all of this kind. */
module GrowArrays {

  /** The sequence without its element `i`, whose place the last element takes. */
  function SwapRemoved<T>(s: seq<T>, i: nat): (r: seq<T>)
    requires i < |s|
    ensures |r| == |s| - 1
  {
    if i == |s| - 1 then s[..i] else s[..|s| - 1][i := s[|s| - 1]]
  }

  /** Exactly the element `i` is gone: with it, what is left has the elements there were. */
  lemma SwapRemovedKeeps<T>(s: seq<T>, i: nat)
    requires i < |s|
    ensures multiset(SwapRemoved(s, i)) + multiset{s[i]} == multiset(s)
  {
    var last := |s| - 1;
    assert s == s[..last] + [s[last]];
    if i < last {
      assert s[..last] == s[..i] + [s[i]] + s[i + 1..last];
      assert SwapRemoved(s, i) == s[..i] + [s[last]] + s[i + 1..last];
    }
  }

  /** Every element keeps its place, but the last one, which takes the place `i`. */
  lemma SwapRemovedAt<T>(s: seq<T>, i: nat, j: nat)
    requires i < |s| && j < |s| - 1
    ensures SwapRemoved(s, i)[j] == if j == i then s[|s| - 1] else s[j]
  {
  }

  class GrowArray<T(0)> {
    var items: array<T>
    var size: nat

    ghost predicate Valid()
      reads this
    {
      size <= items.Length && items.Length >= 1
    }

    ghost function Contents(): seq<T>
      reads this, items
      requires Valid()
    {
      items[..size]
    }

    constructor (cap: nat)
      requires cap >= 1
      ensures Valid() && Contents() == [] && items.Length == cap && fresh(items)
    {
      items := new T[cap];
      size := 0;
    }

    method Push(x: T)
      requires Valid()
      modifies this, items
      ensures Valid() && Contents() == old(Contents()) + [x]
      ensures items == old(items) || fresh(items)
      ensures items.Length == if old(size < items.Length) then old(items.Length) else 2 * old(items.Length)
    {
      if size >= items.Length {
        var grown := new T[items.Length * 2];
        for k := 0 to size
          invariant items == old(items) && items[..] == old(items[..]) && size == old(size)
          invariant grown[..k] == items[..k]
        {
          grown[k] := items[k];
        }
        items := grown;
      }
      items[size] := x;
      size := size + 1;
    }

    method SwapRemove(idx: nat) returns (status: int)
      requires Valid()
      modifies this, items
      ensures Valid() && items == old(items)
      ensures status == if idx < old(size) then 0 else -1
      ensures Contents() == if idx < old(size) then SwapRemoved(old(Contents()), idx) else old(Contents())
    {
      if idx >= size {
        return -1;
      }
      size := size - 1;
      items[idx] := items[size];
      return 0;
    }
  }
}
