/**
 The ring buffer with operations that run to completion (core/src/buffer/ring_buffer.rs:51-350):
 a bounded FIFO queue. Without interference a compare-exchange on a freshly loaded value wins and a
 slot wait ends at its first load; the interleaved behaviour is the subject of `RingMachine`.
 */
module RingBuffer {
  import opened SlotIndex
  import opened Wrappers

  class RingBuffer<T> {
    const capacity: nat
    const sequence: array<nat>
    const data: array<Option<T>>
    var producer: nat
    var consumer: nat

    /** The items between the counters, oldest first. */
    ghost var Contents: seq<T>

    ghost predicate Shape()
      reads this
    {
      && capacity > 0 && sequence.Length == data.Length == capacity && consumer <= producer <= consumer + capacity
      && |Contents| == producer - consumer
    }

    /** Each window slot is published with its item below `producer`, and released and empty from there on. */
    ghost predicate Valid()
      reads this, sequence, data
    {
      && Shape()
      && (forall s: nat :: consumer <= s < consumer + capacity ==>
            var i := Index(s, capacity);
            if s < producer then sequence[i] == s + 1 && data[i] == Some(Contents[s - consumer])
            else sequence[i] == s && data[i] == None)
    }

    /** A fresh ring; the source panics on a capacity that is not a power of two. */
    constructor (capacity: nat)
      requires capacity > 0 && IsPowerOfTwo(capacity)
      ensures Valid() && fresh(sequence) && fresh(data)
      ensures this.capacity == capacity && Contents == []
    {
      this.capacity := capacity;
      sequence := new nat[capacity](i => i);
      data := new Option<T>[capacity](_ => None);
      producer, consumer, Contents := 0, 0, [];
    }

    /** Enqueues unless the ring is full, in which case the item comes back. */
    method TryPush(item: T) returns (r: Result<(), T>)
      requires Valid()
      modifies this`producer, this`Contents, sequence, data
      ensures Valid()
      ensures r == if |old(Contents)| < capacity then Ok(()) else Err(item)
      ensures Contents == if |old(Contents)| < capacity then old(Contents) + [item] else old(Contents)
    {
      var c, p := consumer, producer;
      if p - c >= capacity {
        return Err(item);
      }
      WindowDistinct(p);
      producer := p + 1;
      var index := Index(p, capacity);
      assert sequence[index] == p;
      data[index] := Some(item);
      sequence[index] := p + 1;
      Contents := Contents + [item];
      return Ok(());
    }

    lemma WindowDistinct(s: nat)
      requires Shape() && consumer <= s < consumer + capacity
      ensures forall r: nat | consumer <= r < consumer + capacity && r != s :: Index(r, capacity) != Index(s, capacity)
    {
      forall r: nat | consumer <= r < consumer + capacity && r != s ensures Index(r, capacity) != Index(s, capacity) {
        if r < s { IndexInjective(r, s, capacity); } else { IndexInjective(s, r, capacity); }
      }
    }

    /** Takes the oldest item and releases its slot to the producer one capacity later. */
    method TakeOldest() returns (item: Option<T>)
      requires Valid() && consumer < producer
      modifies this`consumer, this`Contents, sequence, data
      ensures Valid() && consumer == old(consumer) + 1
      ensures item == Some(old(Contents)[0]) && Contents == old(Contents)[1..]
    {
      var c := consumer;
      var index := Index(c, capacity);
      WindowDistinct(c);
      consumer := c + 1;
      item := data[index];
      data[index] := None;
      sequence[index] := c + capacity;
      assert Index(c + capacity, capacity) == index;
      Contents := Contents[1..];
    }

    /** One more item handed over. */
    lemma HandOver(items: seq<T>, queue: seq<T>, all: seq<T>)
      requires items + queue == all && queue != []
      ensures items + [queue[0]] + queue[1..] == all
    {
    }

    /** Hands the oldest `min(batch, len)` items to the callback, in order; `items` lists the calls. */
    method Drain(batch: nat) returns (count: nat, items: seq<T>)
      requires Valid()
      modifies this`consumer, this`Contents, sequence, data
      ensures Valid() && count == |items|
      ensures |items| == if batch < |old(Contents)| then batch else |old(Contents)|
      ensures items + Contents == old(Contents)
    {
      count, items := 0, [];
      while count < batch
        invariant Valid() && count == |items| <= batch
        invariant items + Contents == old(Contents)
      {
        var c, p := consumer, producer;
        if c >= p {
          break;
        }
        assert sequence[Index(c, capacity)] == c + 1;
        HandOver(items, Contents, old(Contents));
        var item := TakeOldest();
        if item.Some? {
          items := items + [item.value];
          count := count + 1;
        }
      }
    }

    /** Without interference helping is draining: it stops early only on an empty ring. */
    method DrainHelping(maxCount: nat) returns (count: nat, items: seq<T>)
      requires Valid()
      modifies this`consumer, this`Contents, sequence, data
      ensures Valid() && count == |items|
      ensures |items| == if maxCount < |old(Contents)| then maxCount else |old(Contents)|
      ensures items + Contents == old(Contents)
    {
      count, items := 0, [];
      while count < maxCount
        invariant Valid() && count == |items| <= maxCount
        invariant items + Contents == old(Contents)
      {
        var c, p := consumer, producer;
        if c >= p {
          break;
        }
        if sequence[Index(c, capacity)] != c + 1 {
          break;
        }
        HandOver(items, Contents, old(Contents));
        var item := TakeOldest();
        if item.Some? {
          items := items + [item.value];
          count := count + 1;
        }
      }
    }

    method Len() returns (n: nat)
      requires Valid()
      ensures n == |Contents|
    {
      n := producer - consumer;
    }

    method IsEmpty() returns (empty: bool)
      requires Valid()
      ensures empty <==> Contents == []
    {
      var n := Len();
      empty := n == 0;
    }
  }
}
