/**
 The bounded event buffer: a ring that drops its oldest element, or refuses the
 newest, when it is full. The ring is an array with wrapping indices, exactly
 as in the source; what it means is the sequence of its elements from the head,
 and an unused place holds nothing.
 */
module BoundedBuffers {
  import opened Wrappers
  import opened Sequences

  datatype Strategy = DropOldest | Error

  /** The `k`-th place after `head` on a ring of `n` places. */
  function Slot(head: nat, k: nat, n: nat): (r: nat)
    requires head < n && k <= n
    ensures r < n
  {
    if head + k < n then head + k else head + k - n
  }

  lemma SlotIsModulo(head: nat, k: nat, n: nat)
    requires head < n && k <= n
    ensures (head + k) % n == Slot(head, k, n)
  {
    if head + k >= n {
      Wraps(head + k - n, n);
    }
  }

  lemma Wraps(a: nat, n: nat)
    requires a <= n && n > 0
    ensures (a + n) % n == if a == n then 0 else a
  {
    var q, r := (a + n) / n, (a + n) % n;
    assert a + n == n * q + r;
    assert q <= 2 ==> n * q == if q == 0 then 0 else if q == 1 then n else n + n;
    assert q > 2 ==> n * q >= n * 3;
  }

  class BoundedBuffer<T> {
    var ring: array<Option<T>>
    var head: nat
    var tail: nat
    var size: nat
    const capacity: nat
    const strategy: Strategy

    /** The ring holds exactly the last `size` elements before `tail`, oldest at `head`, and nothing else. */
    ghost predicate Valid()
      reads this, ring
    {
      && capacity > 0 && ring.Length == capacity
      && head < capacity && size <= capacity && tail == Slot(head, size, capacity)
      && (forall k :: 0 <= k < size ==> ring[Slot(head, k, capacity)].Some?)
      && (forall k :: size <= k < capacity ==> ring[Slot(head, k, capacity)] == None)
    }

    /** The buffered elements, oldest first. */
    ghost function Contents(): (s: seq<T>)
      requires Valid()
      reads this, ring
    {
      seq(size, k requires 0 <= k < size && Valid() reads this, ring => ring[Slot(head, k, capacity)].value)
    }

    constructor (capacity: nat, strategy: Strategy)
      requires capacity > 0
      ensures Valid() && fresh(ring) && Contents() == []
      ensures this.capacity == capacity && this.strategy == strategy
    {
      this.capacity, this.strategy := capacity, strategy;
      ring := new Option<T>[capacity](_ => None);
      head, tail, size := 0, 0, 0;
    }

    method Push(item: T) returns (r: Result<(), string>)
      requires Valid()
      modifies this, ring
      ensures Valid() && ring == old(ring)
      ensures r.Err? <==> strategy == Error && |old(Contents())| == capacity
      ensures r.Err? ==> Contents() == old(Contents())
      ensures r.Ok? ==> Contents() == LastN(old(Contents()) + [item], capacity)
    {
      ghost var before := Contents();
      if size >= capacity {
        if strategy == DropOldest {
          DropHead();
        } else {
          return Err("ONI_STREAM_BACKPRESSURE");
        }
      }
      Append(item);
      r := Ok(());
      assert Contents() == LastN(before + [item], capacity);
    }

    method DropHead()
      requires Valid() && size > 0
      modifies this`head, this`size, ring
      ensures Valid() && Contents() == old(Contents())[1..]
    {
      SlotIsModulo(head, 1, capacity);
      ghost var first := head;
      ring[head] := None;
      head := (head + 1) % capacity;
      size := size - 1;
      assert forall k :: 0 <= k < capacity ==> Slot(head, k, capacity) == Slot(first, k + 1, capacity);
    }

    method Append(item: T)
      requires Valid() && size < capacity
      modifies this`tail, this`size, ring
      ensures Valid() && Contents() == old(Contents()) + [item]
    {
      SlotIsModulo(tail, 1, capacity);
      ring[tail] := Some(item);
      tail := (tail + 1) % capacity;
      size := size + 1;
    }

    method Drain() returns (result: seq<T>)
      requires Valid()
      modifies this
      ensures result == old(Contents())
      ensures Valid() && fresh(ring) && Contents() == []
    {
      result := [];
      for i := 0 to size
        invariant Valid() && Contents() == old(Contents()) && size == old(size)
        invariant result == Contents()[..i]
      {
        SlotIsModulo(head, i, capacity);
        result := result + [ring[(head + i) % capacity].value];
      }
      ring := new Option<T>[capacity](_ => None);
      head, tail, size := 0, 0, 0;
    }
  }

  function PushAll<T>(contents: seq<T>, items: seq<T>, capacity: nat): seq<T> {
    if items == [] then contents
    else LastN(PushAll(contents, items[..|items| - 1], capacity) + [items[|items| - 1]], capacity)
  }

  /** Whatever was dropped on the way, a drain after any number of pushes gives the last elements pushed. */
  lemma {:induction false} PushesKeepTheLast<T>(contents: seq<T>, items: seq<T>, capacity: nat)
    requires |contents| <= capacity
    ensures PushAll(contents, items, capacity) == LastN(contents + items, capacity)
  {
    if items == [] {
      assert contents + items == contents;
    } else {
      var first, last := items[..|items| - 1], items[|items| - 1];
      PushesKeepTheLast(contents, first, capacity);
      LastNAppend(contents + first, last, capacity);
      assert contents + first + [last] == contents + items;
    }
  }
}
