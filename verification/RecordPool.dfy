/**
 The record pool with operations that run to completion (core/src/buffer/object_pool.rs:14-142):
 a LIFO stack of record indices. `R` is the record type; `blank` is a record just after its reset.
 */
module RecordPool {
  import opened PoolMachine
  import opened PoolSteps
  import opened Wrappers

  class RecordPool<R> {
    const blank: R
    const records: array<R>
    const next: array<Option<nat>>
    var head: Option<nat>
    var allocCount: nat
    var freeCount: nat
    /** The free list, top first. */
    ghost var Stack: seq<nat>

    ghost predicate Valid()
      reads this, records, next
    {
      && records as object != next as object
      && records.Length == next.Length > 0
      && IsList(head, next[..], Stack)
      && (forall i :: i in Stack ==> i < records.Length && records[i] == blank)
      && allocCount - freeCount == records.Length - |Stack| >= 0
    }

    /** The source panics on capacity 0. */
    constructor (capacity: nat, blank: R)
      requires capacity > 0
      ensures Valid() && fresh(records) && fresh(next) && this.blank == blank && records.Length == capacity
      ensures Stack == seq(capacity, i requires 0 <= i < capacity => i)
    {
      this.blank := blank;
      records := new R[capacity](_ => blank);
      next := new Option<nat>[capacity](i => if i + 1 < capacity then Some(i + 1) else None);
      head, allocCount, freeCount := Some(0), 0, 0;
      Stack := seq(capacity, i requires 0 <= i < capacity => i);
    }

    /** Takes the top record, which is blank, or reports that the free list is empty. */
    method Alloc() returns (r: Option<nat>)
      requires Valid()
      modifies this
      ensures Valid()
      ensures old(Stack) == [] ==> r == None && Stack == []
      ensures old(Stack) != [] ==>
                && r == Some(old(Stack)[0]) && Stack == old(Stack)[1..]
                && r.value < records.Length && records[r.value] == blank
    {
      if head == None {
        return None;
      }
      var h := head.value;
      PopIsList(head, next[..], Stack);
      head := next[h];
      allocCount := allocCount + 1;
      Stack := Stack[1..];
      return Some(h);
    }

    /** Resets a record its caller owns and puts it on top. */
    method Free(index: nat)
      requires Valid() && index < records.Length && index !in Stack
      modifies this, records, next
      ensures Valid()
      ensures Stack == [index] + old(Stack) && records[index] == blank
      ensures forall i :: 0 <= i < records.Length && i != index ==> records[i] == old(records[i])
    {
      PushIsList(head, next[..], Stack, index);
      DistinctBelow([index] + Stack, records.Length);
      records[index] := blank;
      next[index] := head;
      head := Some(index);
      freeCount := freeCount + 1;
      Stack := [index] + Stack;
      assert next[..] == old(next[..])[index := old(head)];
    }

    method Available() returns (n: nat)
      requires Valid()
      ensures n == |Stack|
    {
      n := SaturatingSub(records.Length, SaturatingSub(allocCount, freeCount));
    }
  }
}
