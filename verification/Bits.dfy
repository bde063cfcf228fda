/** The bit arithmetic of the ring: the index mask and the alignment of the segment layout. */
module Bits {
  import opened Sequences

  function Pow2(k: nat): (p: nat)
    ensures p > 0
  {
    if k == 0 then 1 else 2 * Pow2(k - 1)
  }

  /** Bitwise "and". */
  function And(a: nat, b: nat): nat
    decreases a
  {
    if a == 0 then 0
    else 2 * And(a / 2, b / 2) + (if a % 2 == 1 && b % 2 == 1 then 1 else 0)
  }

  /** Bitwise complement in a word of `width` bits. */
  function Complement(a: nat, width: nat): nat
    requires a < Pow2(width)
  {
    Pow2(width) - 1 - a
  }

  /** The slot index is the remainder. */
  lemma {:induction false} IndexIsRemainder(q: nat, c: nat)
    requires c > 0
    ensures Index(q, c) == q % c
  {
    var d, r := q / c, q % c;
    assert q == d * c + r;
    IndexOfSum(d, r, c);
  }

  lemma {:induction false} IndexOfSum(d: nat, r: nat, c: nat)
    requires r < c
    ensures 0 <= d * c + r && Index(d * c + r, c) == r
    decreases d
  {
    if d > 0 {
      IndexOfSum(d - 1, r, c);
      assert (d - 1) * c + r == d * c + r - c;
    }
  }

  /** `seq & (Capacity - 1)` is the slot index, for every power-of-two capacity. */
  lemma {:induction false} MaskIsIndex(a: nat, k: nat)
    ensures And(a, Pow2(k) - 1) == Index(a, Pow2(k))
    decreases a
  {
    if k == 0 {
      AndZero(a);
      IndexIsRemainder(a, 1);
    } else if a != 0 {
      var p := Pow2(k - 1);
      MaskIsIndex(a / 2, k - 1);
      IndexHalves(a, p);
    }
  }

  lemma {:induction false} IndexHalves(a: nat, p: nat)
    requires p > 0
    ensures Index(a, 2 * p) == 2 * Index(a / 2, p) + a % 2
    decreases a
  {
    if 2 * p <= a {
      IndexHalves(a - 2 * p, p);
      assert (a - 2 * p) / 2 == a / 2 - p;
    }
  }

  lemma {:induction false} WithoutRemainder(t: nat, c: nat)
    requires c > 0
    ensures Index(t, c) <= t && Index(t - Index(t, c), c) == 0
    decreases t
  {
    if c <= t {
      WithoutRemainder(t - c, c);
    }
  }

  lemma {:induction false} AndZero(a: nat)
    ensures And(a, 0) == 0
    decreases a
  {
    if a != 0 {
      AndZero(a / 2);
    }
  }

  /** A word splits into the bits inside and the bits outside a mask. */
  lemma {:induction false} AndSplits(v: nat, a: nat, width: nat)
    requires v < Pow2(width) && a < Pow2(width)
    ensures And(v, a) + And(v, Complement(a, width)) == v
    decreases width
  {
    if width > 0 && v != 0 {
      var p := Pow2(width - 1);
      var b := Complement(a, width);
      assert b / 2 == p - 1 - a / 2 && b % 2 == 1 - a % 2;
      AndSplits(v / 2, a / 2, width - 1);
    }
  }

  /** detail::align_up on words of `width` bits, 64 for size_t: the sum wraps. */
  function AlignUp(v: nat, align: nat, width: nat): nat
    requires v < Pow2(width) && 0 < align <= Pow2(width)
  {
    And(Index(v + (align - 1), Pow2(width)), Complement(align - 1, width))
  }

  ghost predicate LeastMultiple(m: nat, v: nat, align: nat)
    requires align > 0
  {
    Index(m, align) == 0 && v <= m < v + align
  }

  /** For every power-of-two alignment: align_up is the least multiple that is not
      below `v` exactly when that multiple is representable, and 0 otherwise. */
  lemma {:induction false} AlignUpIsLeastMultiple(v: nat, k: nat, width: nat)
    requires v < Pow2(width) && k < width
    ensures Pow2(k) < Pow2(width)
    ensures LeastMultiple(AlignUp(v, Pow2(k), width), v, Pow2(k)) <==> v + Pow2(k) <= Pow2(width)
    ensures v + Pow2(k) > Pow2(width) ==> AlignUp(v, Pow2(k), width) == 0
  {
    var a, top := Pow2(k), Pow2(width);
    Pow2Grows(k, width);
    var t := Index(v + (a - 1), top);
    if top < v + a {
      assert Index(v + (a - 1) - top, top) == v + (a - 1) - top;
    }
    AndSplits(t, a - 1, width);
    MaskIsIndex(t, k);
    var m := AlignUp(v, a, width);
    assert m == t - Index(t, a);
    WithoutRemainder(t, a);
  }

  lemma {:induction false} Pow2Grows(j: nat, k: nat)
    requires j < k
    ensures Pow2(j) < Pow2(k)
    decreases k
  {
    if j < k - 1 {
      Pow2Grows(j, k - 1);
    }
  }

  lemma {:induction false} Pow2Multiple(j: nat, k: nat)
    ensures Pow2(j + k) == Pow2(k) * Pow2(j)
    decreases k
  {
    if k > 0 {
      Pow2Multiple(j, k - 1);
    }
  }

  lemma Pow2Is32()
    ensures Pow2(32) == 0x1_0000_0000
  {
    assert Pow2(8) == 256 by {
      assert Pow2(4) == 16;
    }
    Pow2Multiple(8, 8);
    Pow2Multiple(16, 16);
  }
}
