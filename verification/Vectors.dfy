/**
 `std::vector` as far as the sources use it: growth at the back, in-place
 `remove_if` compaction, and `erase`.
 */
module Vectors {

  /** The elements that survive `remove_if` with predicate `drop`, in order. */
  function Keep<T>(s: seq<T>, drop: T -> bool): seq<T> {
    if s == [] then []
    else
      var rest := Keep(s[..|s| - 1], drop);
      if drop(s[|s| - 1]) then rest else rest + [s[|s| - 1]]
  }

  lemma {:induction false} KeepAppend<T>(a: seq<T>, b: seq<T>, drop: T -> bool)
    ensures Keep(a + b, drop) == Keep(a, drop) + Keep(b, drop)
  {
    if b == [] {
      assert a + b == a;
    } else {
      assert (a + b)[..|a + b| - 1] == a + b[..|b| - 1];
      KeepAppend(a, b[..|b| - 1], drop);
    }
  }

  lemma {:induction false} KeepMembers<T>(s: seq<T>, drop: T -> bool)
    ensures forall x :: x in Keep(s, drop) <==> x in s && !drop(x)
    ensures |Keep(s, drop)| <= |s|
  {
    if s != [] {
      KeepMembers(s[..|s| - 1], drop);
      assert s == s[..|s| - 1] + [s[|s| - 1]];
    }
  }

  lemma {:induction false} KeepAll<T>(s: seq<T>, drop: T -> bool)
    requires forall x :: x in s ==> !drop(x)
    ensures Keep(s, drop) == s
  {
    if s != [] {
      assert s == s[..|s| - 1] + [s[|s| - 1]];
      KeepAll(s[..|s| - 1], drop);
    }
  }

  class Vector<T(0)> {
    var data: array<T>
    var size: nat

    ghost predicate Valid()
      reads this
    {
      size <= data.Length
    }

    ghost function Contents(): seq<T>
      reads this, data
      requires Valid()
    {
      data[..size]
    }

    constructor ()
      ensures Valid() && fresh(data)
      ensures Contents() == []
    {
      data := new T[0];
      size := 0;
    }

    method PushBack(x: T)
      requires Valid()
      modifies this, data
      ensures Valid() && (data == old(data) || fresh(data))
      ensures Contents() == old(Contents()) + [x]
    {
      if size == data.Length {
        var current := data;
        var bigger := new T[2 * size + 1];
        forall i | 0 <= i < size {
          bigger[i] := current[i];
        }
        data := bigger;
      }
      data[size] := x;
      size := size + 1;
    }

    method Set(i: nat, x: T)
      requires Valid() && i < size
      modifies data
      ensures Valid() && Contents() == old(Contents())[i := x]
    {
      data[i] := x;
    }

    /** `std::remove_if`: moves the survivors to the front and returns their end. */
    method RemoveIf(drop: T -> bool) returns (end: nat)
      requires Valid()
      modifies data
      ensures Valid() && end <= size
      ensures data[..end] == Keep(old(Contents()), drop)
    {
      end := 0;
      for i := 0 to size
        invariant end <= i
        invariant data[..end] == Keep(old(data[..size])[..i], drop)
        invariant forall j :: i <= j < size ==> data[j] == old(data[j])
      {
        ghost var before := old(data[..size]);
        assert before[..i + 1][..i] == before[..i];
        assert data[i] == before[i];
        if !drop(data[i]) {
          data[end] := data[i];
          end := end + 1;
        }
      }
      assert old(data[..size])[..size] == old(data[..size]);
    }

    /** `vector::erase (first, last)`. */
    method Erase(first: nat, last: nat)
      requires Valid() && first <= last <= size
      modifies this`size, data
      ensures Valid()
      ensures Contents() == old(Contents())[..first] + old(Contents())[last..]
    {
      ghost var before := Contents();
      for j := last to size
        modifies data
        invariant forall k :: 0 <= k < first ==> data[k] == before[k]
        invariant forall k :: last <= k < j ==> data[first + (k - last)] == before[k]
        invariant forall k :: j <= k < size ==> data[k] == before[k]
      {
        data[first + (j - last)] := data[j];
      }
      size := size - (last - first);
      assert forall k :: first <= k < size ==> data[k] == data[first + (k + last - first - last)];
    }

    /** The idiom `v.erase (remove_if (v.begin (), v.end (), drop), v.end ())`. */
    method EraseRemoveIf(drop: T -> bool)
      requires Valid()
      modifies this`size, data
      ensures Valid()
      ensures Contents() == Keep(old(Contents()), drop)
    {
      var end := RemoveIf(drop);
      Erase(end, size);
    }
  }
}
