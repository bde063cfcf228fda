/** Sequence numbers and slot indices. */
module Sequences {

  /** A byte of payload. */
  newtype byte = x: int | 0 <= x < 256

  type Message = seq<byte>

  datatype Option<+T> = None | Some(value: T)

  /** Stamp of a slot that was never published: all 64 bits set. */
  const EMPTY_SEQ: nat := 0xFFFF_FFFF_FFFF_FFFF

  /** Stamp of a slot whose payload the producer is overwriting. */
  const WRITING_SEQ: nat := 0xFFFF_FFFF_FFFF_FFFE

  /** The value a departing consumer leaves in its cursor. */
  const INFINITY: nat := 0xFFFF_FFFF_FFFF_FFFF

  /** The low 32 bits: the word of a stamp that a futex compares. */
  function Word(n: nat): (w: nat)
    ensures w < 0x1_0000_0000
  {
    n % 0x1_0000_0000
  }

  /** The slot of a sequence number: the remainder by the capacity, by repeated
      subtraction. Bits.MaskIsIndex shows that the mask of the source computes it. */
  function Index(q: nat, capacity: nat): (i: nat)
    requires capacity > 0
    ensures i < capacity
    decreases q
  {
    if q < capacity then q else Index(q - capacity, capacity)
  }

  /** Two sequence numbers that share a slot are at least one lap apart. */
  lemma {:induction false} SameSlotLapApart(a: nat, b: nat, capacity: nat)
    requires capacity > 0
    requires a < b && Index(a, capacity) == Index(b, capacity)
    ensures a + capacity <= b
    decreases b
  {
    if capacity <= a {
      SameSlotLapApart(a - capacity, b - capacity, capacity);
    }
  }

  /** Any window of `capacity` consecutive sequence numbers maps one-to-one onto the slots. */
  lemma {:induction false} WindowHasOneOfEachSlot(first: nat, i: nat, capacity: nat) returns (q: nat)
    requires i < capacity
    ensures first <= q < first + capacity && Index(q, capacity) == i
    ensures forall r | first <= r < first + capacity && Index(r, capacity) == i :: r == q
    decreases first
  {
    if first == 0 {
      q := i;
    } else {
      q := WindowHasOneOfEachSlot(first - 1, i, capacity);
      if q == first - 1 {
        q := q + capacity;
      }
    }
    forall r | first <= r < first + capacity && Index(r, capacity) == i
      ensures r == q
    {
      if r != q {
        SameSlotLapApart(if r < q then r else q, if r < q then q else r, capacity);
      }
    }
  }

  lemma {:induction false} IndexAtMost(q: nat, capacity: nat)
    requires capacity > 0
    ensures Index(q, capacity) <= q
    decreases q
  {
  }
}
