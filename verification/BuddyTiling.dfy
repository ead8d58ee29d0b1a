/**
 The frames as a tiling by naturally aligned power-of-two blocks, and what allocating (splitting)
 and freeing (merging) do to it (src/memory/mod.rs).

 A `Reserved` block is one whose head the bump allocator used during boot: it is never handed out.
 */
module BuddyTiling {
  import opened BuddyMath

  const MAX_ORDER: nat := 10

  datatype Status = Free | Live | Reserved

  datatype Block = Block(order: nat, status: Status)

  type Tiling = map<nat, Block>

  // ----- the invariant -----

  ghost predicate BlocksOk(t: Tiling, owned: set<nat>) {
    forall f :: f in t ==>
      t[f].order <= MAX_ORDER && Aligned(f, t[f].order) && Run(f, t[f].order) <= owned
  }

  ghost predicate Disjoint(t: Tiling) {
    forall f, g :: f in t && g in t && f < g ==> f + Pow2(t[f].order) <= g
  }

  /** The head of the block that page `p` is in. */
  ghost predicate HeadOf(t: Tiling, f: nat, p: nat) {
    f in t && InRun(p, f, t[f].order)
  }

  ghost predicate Covers(t: Tiling, owned: set<nat>) {
    forall p :: p in owned ==> exists f :: HeadOf(t, f, p)
  }

  /** The pages are tiled: every owned page is in one block, and blocks have only owned pages. */
  ghost predicate Tiled(t: Tiling, owned: set<nat>) {
    BlocksOk(t, owned) && Disjoint(t) && Covers(t, owned)
  }

  predicate FreeAt(t: Tiling, f: nat, k: nat) {
    f in t && t[f] == Block(k, Free)
  }

  /** Two buddies of the same order below the largest are never both free. */
  ghost predicate Maximal(t: Tiling) {
    forall f :: f in t && t[f].status.Free? && t[f].order < MAX_ORDER ==> !FreeAt(t, FlipBit(f, t[f].order), t[f].order)
  }

  ghost predicate Good(t: Tiling, owned: set<nat>) {
    Tiled(t, owned) && Maximal(t)
  }

  // ----- pages -----

  ghost function PagesOf(t: Tiling, status: Status): set<nat> {
    set f, p | f in t && t[f].status == status && p in Run(f, t[f].order) :: p
  }

  ghost predicate RunFree(t: Tiling, f: nat, k: nat) {
    Run(f, k) <= PagesOf(t, Free)
  }

  lemma HeadUnique(t: Tiling, f: nat, g: nat, p: nat)
    requires Disjoint(t) && HeadOf(t, f, p) && HeadOf(t, g, p)
    ensures f == g
  {
  }

  /** A page aligned to an order at least that of its block is the head of the block. */
  lemma AlignedIsHead(t: Tiling, owned: set<nat>, f: nat, s: nat, m: nat)
    requires Tiled(t, owned) && Aligned(s, m) && HeadOf(t, f, s) && t[f].order <= m
    ensures f == s
  {
    Pow2Positive(m);
    Pow2Positive(t[f].order);
    Nested(f, t[f].order, s, m);
  }

  /** The buddy of a block is the head of a block that is no larger: it is never an interior page. */
  lemma BuddyIsHead(t: Tiling, owned: set<nat>, c: nat)
    requires Tiled(t, owned) && c in t
    requires FlipBit(c, t[c].order) in owned
    ensures FlipBit(c, t[c].order) in t && t[FlipBit(c, t[c].order)].order <= t[c].order
  {
    hide Pow2, Aligned, FlipBit, ClearBit, Range;
    var m := t[c].order;
    var s := FlipBit(c, m);
    Halves(c, m);
    Pow2Double(m);
    var f :| HeadOf(t, f, s);
    var j := t[f].order;
    if j > m {
      // the block would contain the buddy's other half, which is `c`
      var lo := ClearBit(c, m);
      Pow2Positive(j);
      Pow2Grows(m, j);
      Nested(lo, m + 1, f, j);
      assert false;
    }
    AlignedIsHead(t, owned, f, s, m);
  }

  lemma RunInBlock(t: Tiling, b: nat, f: nat, k: nat)
    requires b in t && t[b].status.Free? && b <= f && f + Pow2(k) <= b + Pow2(t[b].order)
    ensures RunFree(t, f, k)
  {
    assert Run(f, k) <= Run(b, t[b].order);
  }

  // ----- completeness -----

  /** Every aligned run of free pages lies in one free block. */
  lemma {:induction false} FreeRunInBlock(t: Tiling, owned: set<nat>, f: nat, k: nat) returns (b: nat)
    requires Good(t, owned) && Aligned(f, k) && k <= MAX_ORDER && RunFree(t, f, k)
    ensures b in t && t[b].status.Free? && k <= t[b].order
    ensures b <= f && f + Pow2(k) <= b + Pow2(t[b].order)
    decreases k
  {
    hide Pow2, Aligned, FlipBit, ClearBit, Range;
    Pow2Positive(k);
    if k == 0 {
      Pow2Double(0);
      assert f in Run(f, k);
      var g, p :| g in t && t[g].status.Free? && p in Run(g, t[g].order) && p == f;
      b := g;
    } else {
      Pow2Double(k - 1);
      SplitHalves(f, k - 1);
      var hi := f + Pow2(k - 1);
      assert Run(f, k - 1) <= Run(f, k) && Run(hi, k - 1) <= Run(f, k);
      var a := FreeRunInBlock(t, owned, f, k - 1);
      var c := FreeRunInBlock(t, owned, hi, k - 1);
      Pow2Positive(k - 1);
      if t[a].order >= k {
        Nested(f, k, a, t[a].order);
        b := a;
      } else if t[c].order >= k {
        Nested(f, k, c, t[c].order);
        b := c;
      } else {
        // two free buddies of order k - 1
        assert false;
      }
    }
  }

  /** A request can be served exactly when some naturally aligned run of that size is free. */
  lemma ServableIff(t: Tiling, owned: set<nat>, k: nat)
    requires Good(t, owned) && k <= MAX_ORDER
    ensures (exists b :: b in t && t[b].status.Free? && k <= t[b].order) <==>
            (exists f :: Aligned(f, k) && RunFree(t, f, k))
  {
    if b :| b in t && t[b].status.Free? && k <= t[b].order {
      AlignedLower(b, k, t[b].order);
      Pow2Grows(k, t[b].order);
      assert Run(b, k) <= Run(b, t[b].order);
      assert RunFree(t, b, k);
    }
    if f :| Aligned(f, k) && RunFree(t, f, k) {
      var b := FreeRunInBlock(t, owned, f, k);
    }
  }

  // ----- history independence -----

  /** What makes a block free, read off the set of free pages alone. */
  ghost predicate Canonical(free: set<nat>, f: nat, k: nat) {
    && k <= MAX_ORDER && Aligned(f, k) && Run(f, k) <= free
    && (k < MAX_ORDER ==> !(Run(ClearBit(f, k), k + 1) <= free))
  }

  lemma FreeBlocksAreCanonical(t: Tiling, owned: set<nat>, f: nat, k: nat)
    requires Good(t, owned)
    ensures FreeAt(t, f, k) <==> Canonical(PagesOf(t, Free), f, k)
  {
    hide Pow2, Aligned, FlipBit, ClearBit, Range;
    if FreeAt(t, f, k) {
      Halves(f, k);
      Pow2Double(k);
      if k < MAX_ORDER && RunFree(t, ClearBit(f, k), k + 1) {
        var b := FreeRunInBlock(t, owned, ClearBit(f, k), k + 1);
        assert false;
      }
    }
    if Canonical(PagesOf(t, Free), f, k) {
      CanonicalIsBlock(t, owned, f, k);
    }
  }

  lemma CanonicalIsBlock(t: Tiling, owned: set<nat>, f: nat, k: nat)
    requires Good(t, owned) && Canonical(PagesOf(t, Free), f, k)
    ensures FreeAt(t, f, k)
  {
    hide Pow2, Aligned, FlipBit, ClearBit, Range;
    var b := FreeRunInBlock(t, owned, f, k);
    var j := t[b].order;
    Pow2Double(k);
    if j > k {
      Halves(f, k);
      Pow2Grows(k + 1, j);
      Nested(ClearBit(f, k), k + 1, b, j);
      RunInBlock(t, b, ClearBit(f, k), k + 1);
      assert false;
    }
    assert b == f;
  }

  /** The free blocks depend on the free pages only, not on the history that led there. */
  lemma HistoryIndependence(t1: Tiling, t2: Tiling, owned1: set<nat>, owned2: set<nat>)
    requires Good(t1, owned1) && Good(t2, owned2)
    requires PagesOf(t1, Free) == PagesOf(t2, Free)
    ensures forall f, k :: FreeAt(t1, f, k) <==> FreeAt(t2, f, k)
  {
    forall f, k
      ensures FreeAt(t1, f, k) <==> FreeAt(t2, f, k)
    {
      FreeBlocksAreCanonical(t1, owned1, f, k);
      FreeBlocksAreCanonical(t2, owned2, f, k);
    }
  }
}
