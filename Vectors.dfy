/** The growable string buffer `Vector` (utils.h:18-32, utils.cpp:5-31):
    an array `data` of `capacity` slots of which the first `length` are in use. */
module Vectors {

  class Vector {
    var data: array<string>
    var capacity: nat
    var length: nat
    ghost var Repr: set<object>

    ghost predicate Valid()
      reads this, Repr
    {
      this in Repr && data in Repr && Repr == {this, data} &&
      capacity == data.Length && 1 <= capacity && length <= capacity
    }

    /** The strings stored so far, in insertion order. */
    ghost function Contents(): seq<string>
      reads this, Repr
      requires Valid()
    {
      data[..length]
    }

    /** `Vector(int n = 1)`: an empty buffer of capacity `n`. */
    constructor (n: nat := 1)
      requires 1 <= n
      ensures Valid() && fresh(Repr)
      ensures Contents() == [] && capacity == n
    {
      data := new string[n];
      capacity := n;
      length := 0;
      Repr := {this, data};
    }

    /** `push_back`: when the buffer is full its capacity doubles and the old
        elements are copied, in order, into the new array first. */
    method PushBack(s: string)
      requires Valid()
      modifies Repr
      ensures Valid() && fresh(Repr - old(Repr))
      ensures Contents() == old(Contents()) + [s]
      ensures capacity == if old(capacity) <= old(length) then 2 * old(capacity) else old(capacity)
    {
      if capacity <= length {
        var temp := new string[capacity * 2];
        for i := 0 to length
          modifies temp
          invariant temp[..i] == data[..i]
        {
          temp[i] := data[i];
        }
        data := temp;
        capacity := capacity * 2;
        Repr := {this, data};
      }
      data[length] := s;
      length := length + 1;
    }

    /** `operator[]`, on an index in use. */
    method Get(i: nat) returns (s: string)
      requires Valid() && i < |Contents()|
      ensures s == Contents()[i]
    {
      s := data[i];
    }

    /** `remove(x)`: the elements after index `x` move one place left and
        the length drops by one; for `x` past the end nothing moves, so the
        last element is dropped. */
    method Remove(x: nat)
      requires Valid() && 0 < length
      modifies Repr
      ensures Valid() && Repr == old(Repr) && capacity == old(capacity)
      ensures Contents() == if x < old(length) then old(Contents())[..x] + old(Contents())[x + 1..]
                            else old(Contents())[..old(length) - 1]
    {
      ghost var before := data[..length];
      var i := x + 1;
      while i < length
        modifies data
        invariant x + 1 <= i
        invariant forall k :: 0 <= k < length && (k < x || i <= k) ==> data[k] == before[k]
        invariant forall k :: x <= k < i - 1 && k + 1 < length ==> data[k] == before[k + 1]
      {
        data[i - 1] := data[i];
        i := i + 1;
      }
      length := length - 1;
      if x < |before| {
        assert data[..length] == before[..x] + before[x + 1..];
      } else {
        assert data[..length] == before[..length];
      }
    }

    method Size() returns (n: nat)
      requires Valid()
      ensures n == |Contents()|
    {
      n := length;
    }
  }
}
