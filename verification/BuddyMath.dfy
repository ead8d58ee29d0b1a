/**
 Powers of two, natural alignment and single-bit arithmetic on frame numbers, as the frame
 allocator uses them (src/memory/mod.rs). A frame number is its physical address divided by the
 page size. Everything recurses on the order by halving the frame number.
 */
module BuddyMath {

  function Pow2(k: nat): nat {
    if k == 0 then 1 else 2 * Pow2(k - 1)
  }

  /** `is_aligned_to_order` */
  predicate Aligned(f: nat, k: nat) {
    k == 0 || (f % 2 == 0 && Aligned(f / 2, k - 1))
  }

  /** `f ^ (1 << k)` */
  function FlipBit(f: nat, k: nat): nat {
    if k == 0 then (if f % 2 == 0 then f + 1 else f - 1) else 2 * FlipBit(f / 2, k - 1) + f % 2
  }

  /** `f & !(1 << k)` */
  function ClearBit(f: nat, k: nat): nat {
    if k == 0 then f - f % 2 else 2 * ClearBit(f / 2, k - 1) + f % 2
  }

  predicate InRun(p: nat, f: nat, k: nat) {
    f <= p < f + Pow2(k)
  }

  /** The pages of the block of order `k` at `f`. */
  function Run(f: nat, k: nat): set<nat> {
    Range(f, Pow2(k))
  }

  function Range(f: nat, n: nat): (s: set<nat>)
    ensures forall p :: p in s <==> f <= p < f + n
  {
    if n == 0 then {} else Range(f, n - 1) + {f + n - 1}
  }

  lemma Pow2Positive(k: nat)
    ensures Pow2(k) > 0
  {
  }

  lemma Pow2Double(k: nat)
    ensures Pow2(k + 1) == Pow2(k) + Pow2(k) && Pow2(k) > 0
    ensures Pow2(0) == 1
  {
    Pow2Positive(k);
  }

  /** The remainder test of the code and the recursive definition agree. */
  lemma {:induction false} AlignedIsRemainder(f: nat, k: nat)
    ensures Pow2(k) > 0
    ensures Aligned(f, k) <==> f % Pow2(k) == 0
    decreases k
  {
    if k > 0 {
      AlignedIsRemainder(f / 2, k - 1);
      HalveRemainder(f, Pow2(k - 1));
    }
  }

  lemma HalveRemainder(f: nat, m: nat)
    requires m > 0
    ensures f % (2 * m) == 0 <==> f % 2 == 0 && (f / 2) % m == 0
  {
    var h := f / 2;
    var q, r := h / m, h % m;
    assert h == q * m + r;
    assert f == 2 * h + f % 2;
    assert f == q * (2 * m) + (2 * r + f % 2);
    assert 0 <= 2 * r + f % 2 < 2 * m;
    RemainderUnique(f, 2 * m, q, 2 * r + f % 2);
  }

  lemma RemainderUnique(f: nat, m: nat, q: nat, r: nat)
    requires m > 0 && r < m && f == q * m + r
    ensures f % m == r
  {
    var d := q - f / m;
    assert f == m * (f / m) + f % m;
    assert d * m == q * m - m * (f / m);
    assert d * m == f % m - r;
    SmallMultiple(d, m);
  }

  lemma SmallMultiple(d: int, m: int)
    requires m > 0 && -m < d * m < m
    ensures d == 0
  {
  }

  /** A block and its buddy are the two halves of the block one order up. */
  lemma {:induction false} Halves(f: nat, k: nat)
    requires Aligned(f, k)
    ensures Aligned(FlipBit(f, k), k) && FlipBit(FlipBit(f, k), k) == f && FlipBit(f, k) != f
    ensures Aligned(ClearBit(f, k), k + 1)
    ensures f == ClearBit(f, k) || f == ClearBit(f, k) + Pow2(k)
    ensures FlipBit(f, k) == if f == ClearBit(f, k) then f + Pow2(k) else f - Pow2(k)
    ensures ClearBit(FlipBit(f, k), k) == ClearBit(f, k)
    decreases k
  {
    Pow2Positive(k);
    if k > 0 {
      Halves(f / 2, k - 1);
    }
  }

  /** The upper half of a block is the buddy of its lower half. */
  lemma {:induction false} SplitHalves(f: nat, k: nat)
    requires Aligned(f, k + 1)
    ensures Aligned(f, k) && Aligned(f + Pow2(k), k)
    ensures FlipBit(f, k) == f + Pow2(k) && FlipBit(f + Pow2(k), k) == f
    ensures ClearBit(f, k) == f && ClearBit(f + Pow2(k), k) == f
    decreases k
  {
    if k > 0 {
      SplitHalves(f / 2, k - 1);
    }
  }

  lemma {:induction false} AlignedLower(f: nat, j: nat, k: nat)
    requires Aligned(f, k) && j <= k
    ensures Aligned(f, j)
    decreases j
  {
    if j > 0 {
      AlignedLower(f / 2, j - 1, k - 1);
    }
  }

  lemma {:induction false} Pow2Grows(j: nat, k: nat)
    requires j <= k
    ensures Pow2(j) <= Pow2(k)
    ensures j < k ==> 2 * Pow2(j) <= Pow2(k)
    decreases k
  {
    if j < k {
      Pow2Grows(j, k - 1);
    }
  }

  /** Two naturally aligned blocks that overlap are nested. */
  lemma {:induction false} Nested(f: nat, j: nat, g: nat, k: nat)
    requires Aligned(f, j) && Aligned(g, k) && j <= k
    requires f < g + Pow2(k) && g < f + Pow2(j)
    ensures g <= f && f + Pow2(j) <= g + Pow2(k)
    decreases j
  {
    if j > 0 {
      Nested(f / 2, j - 1, g / 2, k - 1);
    }
  }

  lemma RunSize(f: nat, k: nat)
    ensures |Run(f, k)| == Pow2(k)
  {
    RangeSize(f, Pow2(k));
  }

  lemma {:induction false} RangeSize(f: nat, n: nat)
    ensures |Range(f, n)| == n
    decreases n
  {
    if n > 0 {
      RangeSize(f, n - 1);
    }
  }
}
