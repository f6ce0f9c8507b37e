/** The slot a sequence number maps to (core/src/buffer/ring_buffer.rs:80-98, 153, 200, 285). */
module SlotIndex {
  import opened Powers

  /** The remainder of `s` by the capacity. */
  function Index(s: nat, capacity: nat): (i: nat)
    requires capacity > 0
    ensures i < capacity
  {
    if s < capacity then s else Index(s - capacity, capacity)
  }

  /** Distinct sequence numbers less than a capacity apart use distinct slots. */
  lemma {:induction false} IndexInjective(s: nat, r: nat, capacity: nat)
    requires s < r < s + capacity
    ensures Index(s, capacity) != Index(r, capacity)
  {
    if s >= capacity {
      IndexInjective(s - capacity, r - capacity, capacity);
    } else if r >= capacity {
      assert Index(r, capacity) == r - capacity;
    }
  }

  /** Bitwise conjunction of two naturals, lowest bit first. */
  function And(a: nat, b: nat): nat {
    if a == 0 || b == 0 then 0 else 2 * And(a / 2, b / 2) + (if a % 2 == 1 && b % 2 == 1 then 1 else 0)
  }

  ghost predicate IsPowerOfTwo(n: nat) {
    exists k: nat :: n == Pow2(k)
  }

  lemma {:induction false} IndexHalves(s: nat, m: nat)
    requires m > 0
    ensures Index(s, 2 * m) == 2 * Index(s / 2, m) + s % 2
  {
    if s >= 2 * m {
      IndexHalves(s - 2 * m, m);
      assert (s - 2 * m) / 2 == s / 2 - m;
    }
  }

  lemma IndexOfZero(m: nat)
    requires m > 0
    ensures Index(0, m) == 0
  {
  }

  /** For a power-of-two capacity, masking with `capacity - 1` is the remainder. */
  lemma {:induction false} MaskIsIndex(s: nat, k: nat)
    ensures And(s, Pow2(k) - 1) == Index(s, Pow2(k))
  {
    if k == 0 {
      IndexOfOne(s);
    } else {
      IndexHalves(s, Pow2(k - 1));
      MaskIsIndex(s / 2, k - 1);
      assert (Pow2(k) - 1) / 2 == Pow2(k - 1) - 1;
      if s == 0 { IndexOfZero(Pow2(k - 1)); }
    }
  }

  lemma {:induction false} IndexOfOne(s: nat)
    ensures Index(s, 1) == 0
  {
    if s > 0 { IndexOfOne(s - 1); }
  }
}
