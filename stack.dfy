/** The card game's `Stack`: a list whose end is the top. The capacity given at
    construction is stored and never consulted. */
module Stacks {
  import opened Wrappers

  /** The list after pushing `x`. */
  function PushOf<T>(s: seq<T>, x: T): (r: seq<T>)
    ensures |r| == |s| + 1 && r[..|s|] == s && r[|s|] == x
  {
    s + [x]
  }

  /** What popping the list `s` returns and leaves: the last item and the rest,
      or an index error and the list untouched. */
  function PopOf<T>(s: seq<T>): (r: (Result<T>, seq<T>))
    ensures r.0.Failure? <==> s == []
    ensures r.0.Failure? ==> r.0.error == IndexError && r.1 == s
    ensures r.0.Success? ==> s == r.1 + [r.0.value]
  {
    if s == [] then (Failure(IndexError), s) else (Success(s[|s| - 1]), s[..|s| - 1])
  }

  /** A pop undoes a push: it returns the pushed item and leaves the list as it was. */
  lemma PushThenPop<T>(s: seq<T>, x: T)
    ensures PopOf(PushOf(s, x)) == (Success(x), s)
  {
    var r := PopOf(PushOf(s, x));
    assert s + [x] == r.1 + [r.0.value];
    assert (s + [x])[|s|] == x;
  }

  /** Popping everything returns the items most recent first. */
  function PopAll<T>(s: seq<T>): (r: seq<T>)
    ensures |r| == |s|
    ensures forall i :: 0 <= i < |s| ==> r[i] == s[|s| - 1 - i]
  {
    if s == [] then [] else [s[|s| - 1]] + PopAll(s[..|s| - 1])
  }

  /** Pushing items one by one onto any list and then popping as many gives them
      back most recent first, whatever lay beneath (last in, first out). */
  lemma {:induction false} PushAllPopAll<T>(s: seq<T>, xs: seq<T>)
    ensures PopAll(s + xs)[..|xs|] == PopAll(xs)
    decreases |xs|
  {
    if xs != [] {
      var last := xs[|xs| - 1];
      var front := xs[..|xs| - 1];
      assert s + xs == (s + front) + [last];
      assert (s + xs)[..|s + xs| - 1] == s + front;
      PushAllPopAll(s, front);
    }
  }

  class Stack<T> {
    var items: seq<T>
    var capacity: int

    /** An empty stack; the capacity is only recorded. */
    constructor (capacity: int)
      ensures items == [] && this.capacity == capacity
    {
      items := [];
      this.capacity := capacity;
    }

    /** `push`: the item goes on top, whatever the capacity. */
    method Push(item: T)
      modifies this
      ensures items == PushOf(old(items), item) && capacity == old(capacity)
    {
      items := items + [item];
    }

    /** `pop`: removes and returns the top item; an empty stack raises an index error. */
    method Pop() returns (r: Result<T>)
      modifies this
      ensures (r, items) == PopOf(old(items)) && capacity == old(capacity)
    {
      if items == [] {
        return Failure(IndexError);
      }
      r := Success(items[|items| - 1]);
      items := items[..|items| - 1];
    }

    /** `peek`: the top item, the stack unchanged; an empty stack raises an index error. */
    function Peek(): (r: Result<T>)
      reads this
      ensures r == PopOf(items).0
    {
      if items == [] then Failure(IndexError) else Success(items[|items| - 1])
    }

    /** `isEmpty`. */
    function IsEmpty(): (r: bool)
      reads this
      ensures r <==> Size() == 0
    {
      items == []
    }

    /** `size`. */
    function Size(): (r: nat)
      reads this
      ensures r == 0 <==> PopOf(items).0.Failure?
    {
      |items|
    }

    /** `clear`: the stack is empty afterwards, whether or not it was before. */
    method Clear()
      modifies this
      ensures items == [] && capacity == old(capacity)
    {
      items := [];
    }
  }
}
