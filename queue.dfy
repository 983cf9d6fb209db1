/** The card game's `Queue`: a bounded first-in first-out list whose front is
    position 0. */
module Queues {
  import opened Wrappers

  /** What enqueueing `x` on the list `s` of capacity `capacity` returns and leaves:
      a full list refuses the item, any other takes it at the back. */
  function EnqueueOf<T>(s: seq<T>, capacity: int, x: T): (r: (Result<()>, seq<T>))
    ensures r.0.Failure? <==> |s| >= capacity
    ensures r.0.Failure? ==> r.0.error == QueueFull && r.1 == s
    ensures r.0.Success? ==> r.1 == s + [x]
  {
    if |s| >= capacity then (Failure(QueueFull), s) else (Success(()), s + [x])
  }

  /** What dequeueing the list `s` returns and leaves: the front item and the
      rest, or a failure and the list untouched. */
  function DequeueOf<T>(s: seq<T>): (r: (Result<T>, seq<T>))
    ensures r.0.Failure? <==> s == []
    ensures r.0.Failure? ==> r.0.error == QueueEmpty && r.1 == s
    ensures r.0.Success? ==> s == [r.0.value] + r.1
  {
    if s == [] then (Failure(QueueEmpty), s) else (Success(s[0]), s[1..])
  }

  /** A list within its capacity stays within it after an enqueue. */
  lemma EnqueueKeepsBound<T>(s: seq<T>, capacity: int, x: T)
    requires |s| <= capacity
    ensures |EnqueueOf(s, capacity, x).1| <= capacity
  {
  }

  /** An enqueue does not overtake: on a non-empty list the front leaves first and
      the new item joins the back of what is left. */
  lemma EnqueueBehind<T>(s: seq<T>, capacity: int, x: T)
    requires s != [] && |s| < capacity
    ensures var e := EnqueueOf(s, capacity, x).1;
            DequeueOf(e) == (Success(s[0]), DequeueOf(s).1 + [x])
  {
    var e := EnqueueOf(s, capacity, x).1;
    assert e == s + [x];
    assert e[1..] == s[1..] + [x];
  }

  /** Dequeueing everything returns the items in the order they were enqueued. */
  function DequeueAll<T>(s: seq<T>): (r: seq<T>)
    decreases |s|
  {
    var d := DequeueOf(s);
    if d.0.Failure? then [] else [d.0.value] + DequeueAll(d.1)
  }

  /** First in, first out: draining a queue gives its items front to back. */
  lemma {:induction false} DrainInOrder<T>(s: seq<T>)
    ensures DequeueAll(s) == s
    decreases |s|
  {
    if s != [] {
      DrainInOrder(s[1..]);
      assert s == [s[0]] + s[1..];
    }
  }

  class Queue<T> {
    var items: seq<T>
    var capacity: int

    /** At most `capacity` items. */
    ghost predicate Valid()
      reads this
    {
      0 <= |items| <= capacity
    }

    /** `Queue(capacity)`: an empty queue; the source asserts the capacity is not negative. */
    constructor (capacity: int)
      requires capacity >= 0
      ensures Valid() && items == [] && this.capacity == capacity
    {
      items := [];
      this.capacity := capacity;
    }

    /** `enqueue`: a full queue raises; any other takes the item at the back. */
    method Enqueue(item: T) returns (r: Result<()>)
      requires Valid()
      modifies this
      ensures Valid() && (r, items) == EnqueueOf(old(items), capacity, item) && capacity == old(capacity)
    {
      if |items| >= capacity {
        return Failure(QueueFull);
      }
      items := items + [item];
      r := Success(());
    }

    /** `dequeue`: removes and returns the front item; an empty queue raises. */
    method Dequeue() returns (r: Result<T>)
      requires Valid()
      modifies this
      ensures Valid() && (r, items) == DequeueOf(old(items)) && capacity == old(capacity)
    {
      if |items| == 0 {
        return Failure(QueueEmpty);
      }
      r := Success(items[0]);
      items := items[1..];
    }

    /** `peek`: the item a dequeue would return, the queue unchanged. */
    function Peek(): (r: Result<T>)
      reads this
      ensures r == DequeueOf(items).0
    {
      if |items| <= 0 then Failure(QueueEmpty) else Success(items[0])
    }

    /** `isEmpty`: a dequeue would fail. */
    function IsEmpty(): (r: bool)
      reads this
      ensures r <==> DequeueOf(items).0.Failure?
    {
      |items| == 0
    }

    /** `isFull`: within capacity, exactly when an enqueue of any item would fail. */
    function IsFull(): (r: bool)
      reads this
      ensures Valid() ==> (r <==> |items| >= capacity)
    {
      |items| == capacity
    }

    /** `size`. */
    function Size(): (r: nat)
      reads this
      ensures Valid() ==> r <= Capacity()
    {
      |items|
    }

    /** `capacity`. */
    function Capacity(): (r: int)
      reads this
      ensures Valid() ==> 0 <= |items| <= r
    {
      capacity
    }

    /** `clear`: empties the queue, capacity unchanged. */
    method Clear()
      requires Valid()
      modifies this
      ensures Valid() && items == [] && capacity == old(capacity)
    {
      items := [];
    }
  }
}
