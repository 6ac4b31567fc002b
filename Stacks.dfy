/** The linked LIFO stacks `Stack` (of strings) and `NumStack` (of doubles)
    (utils.h:34-76, utils.cpp:39-103). Both are the same structure over a
    different element type, so they are modelled once, generically: a chain
    of nodes linked through `prev`, ending in the sentinel node `start` that
    the stack owns. The stack is empty exactly when `current` is `start`, and
    the sentinel's value is what `pop` and `peek` give on an empty stack
    (`""` for `Stack`, `0` for `NumStack`). */
module Stacks {

  class Node<T> {
    const prev: Node?<T>
    const s: T

    constructor (prev: Node?<T>, s: T)
      ensures this.prev == prev && this.s == s
    {
      this.prev := prev;
      this.s := s;
    }
  }

  class Stack<T> {
    var current: Node<T>
    const start: Node<T>

    /** The pushed values, bottom first. */
    ghost var Contents: seq<T>
    /** The chain from the sentinel to `current`: `Nodes[0]` is `start` and
        `Nodes[i]` holds `Contents[i - 1]`. */
    ghost var Nodes: seq<Node<T>>

    ghost predicate Valid()
      reads this
    {
      |Nodes| == |Contents| + 1 &&
      Nodes[0] == start && start.prev == null &&
      current == Nodes[|Nodes| - 1] &&
      (forall i :: 0 < i < |Nodes| ==> Nodes[i].prev == Nodes[i - 1] && Nodes[i].s == Contents[i - 1]) &&
      (forall i, j :: 0 <= i < j < |Nodes| ==> Nodes[i] != Nodes[j])
    }

    /** The value `pop` and `peek` return on an empty stack. */
    function Default(): T
    {
      start.s
    }

    /** `Stack()` / `NumStack()`: `current` points at the sentinel. */
    constructor (default: T)
      ensures Valid() && Contents == [] && Default() == default
    {
      var n := new Node(null, default);
      start := n;
      current := n;
      Contents := [];
      Nodes := [n];
    }

    method Push(x: T)
      requires Valid()
      modifies this
      ensures Valid() && Contents == old(Contents) + [x]
    {
      var n := new Node(current, x);
      current := n;
      Contents := Contents + [x];
      Nodes := Nodes + [n];
    }

    /** `pop`: on an empty stack the default value, and the stack stays empty. */
    method Pop() returns (x: T)
      requires Valid()
      modifies this
      ensures Valid()
      ensures old(Contents) == [] ==> x == Default() && Contents == []
      ensures old(Contents) != [] ==> x == old(Contents)[|old(Contents)| - 1] &&
                                      Contents == old(Contents)[..|old(Contents)| - 1]
    {
      if current == start {
        assert |Nodes| == 1;
        return start.s;
      }
      assert |Nodes| > 1 && current.prev == Nodes[|Nodes| - 2];
      x := current.s;
      current := current.prev;
      Contents := Contents[..|Contents| - 1];
      Nodes := Nodes[..|Nodes| - 1];
    }

    /** `peek`: the top value, or the sentinel's value when empty. */
    method Peek() returns (x: T)
      requires Valid()
      ensures x == if Contents == [] then Default() else Contents[|Contents| - 1]
    {
      x := current.s;
    }

    method IsEmpty() returns (b: bool)
      requires Valid()
      ensures b <==> Contents == []
    {
      b := current == start;
    }
  }

  /** LIFO: a push followed by a pop gives back the pushed value and leaves
      the stack as it was. */
  method PushThenPop<T>(st: Stack<T>, x: T) returns (y: T)
    requires st.Valid()
    modifies st
    ensures st.Valid() && y == x && st.Contents == old(st.Contents)
  {
    st.Push(x);
    y := st.Pop();
  }
}
