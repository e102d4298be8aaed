/**
 * spx::SpxQueue: a double-ended queue over a growable array, every call of
 * which runs under one lock. The lock is not modelled: each method is one
 * atomic step on `data`, the element sequence (front first).
 */
module Spx {
  import opened Optional
  import opened DequeTrace

  class SpxQueue<T> {
    /** The elements, oldest at index 0, most recently pushed last. */
    var data: seq<T>

    /** A new queue is empty. */
    constructor ()
      ensures data == []
    {
      data := [];
    }

    /**
     * Move construction: the new queue holds the source's elements in their
     * order. The source's state afterwards is left unspecified.
     */
    constructor MoveFrom(other: SpxQueue<T>)
      modifies other
      ensures data == old(other.data)
    {
      data := other.data;
      new;
      other.data := [];
    }

    /**
     * Move assignment: this queue takes the source's elements in their order;
     * assigning a queue to itself leaves it unchanged. Returns this queue.
     */
    method MoveAssign(other: SpxQueue<T>) returns (self: SpxQueue<T>)
      modifies this, other
      ensures self == this
      ensures data == old(other.data)
      ensures other == this ==> data == old(data)
    {
      if this != other {
        data := other.data;
        other.data := [];
      }
      self := this;
    }

    /** Appends `value` at the back. */
    method Push(value: T)
      modifies this
      ensures |data| == |old(data)| + 1
      ensures data[..|old(data)|] == old(data) && data[|data| - 1] == value
    {
      data := data + [value];
    }

    /** Removes and returns the front element; `None` when empty. */
    method Pop() returns (front: Option<T>)
      modifies this
      ensures old(data) == [] ==> front == None && data == old(data)
      ensures old(data) != [] ==> front == Some(old(data)[0]) && data == old(data)[1..]
    {
      if data == [] {
        return None;
      }
      front := Some(data[0]);
      data := data[1..];
    }

    /** Removes and returns the back element; `None` when empty. */
    method Steal() returns (back: Option<T>)
      modifies this
      ensures old(data) == [] ==> back == None && data == old(data)
      ensures old(data) != [] ==>
                back == Some(old(data)[|old(data)| - 1]) && data == old(data)[..|old(data)| - 1]
    {
      if data == [] {
        return None;
      }
      back := Some(data[|data| - 1]);
      data := data[..|data| - 1];
    }

    /** Whether the queue holds no element. */
    method Empty() returns (isEmpty: bool)
      ensures isEmpty <==> |data| == 0
    {
      isEmpty := data == [];
    }

    /** The number of elements. */
    method Size() returns (n: nat)
      ensures n == |data|
    {
      n := |data|;
    }

    /** Discards every element. */
    method Clear()
      modifies this
      ensures data == []
    {
      data := [];
    }
  }

  /** One call of the queue's API, named by `op`, behaves as `Step` says. */
  method Perform<T>(q: SpxQueue<T>, op: Op<T>) returns (reply: Option<T>)
    modifies q
    ensures (q.data, reply) == Step(old(q.data), op)
  {
    match op
    case Push(v) =>
      q.Push(v);
      assert q.data == old(q.data) + [v];
      reply := None;
    case Pop =>
      reply := q.Pop();
    case Steal =>
      reply := q.Steal();
    case Clear =>
      q.Clear();
      reply := None;
  }

  /** A run of calls on the object behaves as `Exec` says: same final contents, same replies. */
  method PerformAll<T>(q: SpxQueue<T>, ops: seq<Op<T>>) returns (replies: seq<Option<T>>)
    modifies q
    ensures Exec(old(q.data), ops) == Run(q.data, replies)
  {
    replies := [];
    for i := 0 to |ops|
      invariant Exec(old(q.data), ops)
             == Run(Exec(q.data, ops[i..]).contents, replies + Exec(q.data, ops[i..]).replies)
    {
      ExecCons(q.data, ops[i..]);
      assert ops[i..][0] == ops[i] && ops[i..][1..] == ops[i + 1..];
      var reply := Perform(q, ops[i]);
      replies := replies + [reply];
    }
    assert ops[|ops|..] == [];
  }

  /** `Empty` reports true exactly when `Size` reports zero; neither changes the queue. */
  method EmptyMatchesSize<T>(q: SpxQueue<T>) returns (isEmpty: bool, n: nat)
    ensures isEmpty <==> n == 0
    ensures n == |q.data|
  {
    isEmpty := q.Empty();
    n := q.Size();
  }

  /**
   * Pops and steals from both ends of one queue: each pushed value comes out
   * once, from the end it was taken at, and the drained queue reports empty.
   */
  method DrainBothEnds<T>(a: T, b: T, c: T) returns (first: Option<T>, last: Option<T>, middle: Option<T>, none: Option<T>)
    ensures first == Some(a) && last == Some(c) && middle == Some(b) && none == None
  {
    var q := new SpxQueue<T>();
    q.Push(a);
    q.Push(b);
    q.Push(c);
    first := q.Pop();
    last := q.Steal();
    middle := q.Pop();
    none := q.Steal();
  }
}
