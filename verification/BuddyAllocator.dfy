/**
 The frame allocator (src/memory/mod.rs): free lists threaded through the page infos, kept in step
 with a tiling of the frames. Frame 0 has no page info: `Frame` cannot hold it.
 */
module BuddyAllocator {
  import opened Common
  import opened BuddyMath
  import opened BuddyTiling
  import opened BuddyOps
  import opened BuddyLists

  /** List `o` holds exactly the free blocks of order `o`. */
  ghost predicate Indexed(lists: seq<seq<nat>>, t: Tiling) {
    && |lists| == ORDER_COUNT
    && (forall o, f | 0 <= o < ORDER_COUNT :: f in lists[o] <==> FreeAt(t, f, o))
  }

  /** The head of every block that is not free is marked used, `but` excepted. */
  ghost predicate HeadsUsed(t: Tiling, infos: Infos, but: Option<nat>) {
    forall f :: f in t && !t[f].status.Free? && but != Some(f) ==> f in infos && infos[f].Used?
  }

  ghost predicate Consistent(infos: Infos, heads: seq<Option<nat>>, lists: seq<seq<nat>>, t: Tiling, but: Option<nat>) {
    && Good(t, infos.Keys)
    && AllLinked(infos, heads, lists)
    && Indexed(lists, t)
    && HeadsUsed(t, infos, but)
    && 0 !in infos
  }

  lemma IndexedIsSeparate(lists: seq<seq<nat>>, t: Tiling)
    requires Indexed(lists, t)
    ensures Separate(lists)
  {
    forall o, q | 0 <= o < |lists| && 0 <= q < |lists| && o != q
      ensures forall f :: f in lists[o] ==> f !in lists[q]
    {
      forall f | f in lists[o]
        ensures f !in lists[q]
      {
        assert FreeAt(t, f, o);
      }
    }
  }

  // ----- taking a block out of its list, putting one in -----

  lemma UnlinkLists(infos: Infos, heads: seq<Option<nat>>, lists: seq<seq<nat>>, t: Tiling, o: nat, i: nat)
    requires AllLinked(infos, heads, lists) && Indexed(lists, t) && o < ORDER_COUNT && i < |lists[o]|
    ensures lists[o][i] in infos && infos[lists[o][i]].Unused?
    ensures var l := Without(lists[o], i);
            AllLinked(Unlink(infos, lists[o][i]), heads[o := First(l)], lists[o := l])
  {
    hide Unlink, Without, First;
    IndexedIsSeparate(lists, t);
    UnlinkKeeps(infos, lists[o], i, o);
    UnlinkOthers(infos, lists[o], i, o);
    var infos1 := Unlink(infos, lists[o][i]);
    forall q, f | 0 <= q < ORDER_COUNT && q != o && f in lists[q]
      ensures f in infos1 && infos1[f] == infos[f]
    {
      assert Linked(infos, lists[q], q);
      assert f in infos;
    }
    ReplaceList(infos, infos1, heads, lists, o, Without(lists[o], i));
  }

  lemma PushLists(infos: Infos, heads: seq<Option<nat>>, lists: seq<seq<nat>>, t: Tiling, o: nat, c: nat)
    requires AllLinked(infos, heads, lists) && Indexed(lists, t) && o < ORDER_COUNT
    requires forall q :: !FreeAt(t, c, q)
    ensures AllLinked(Push(infos, c, heads[o], o), heads[o := Some(c)], lists[o := [c] + lists[o]])
  {
    hide Push;
    IndexedIsSeparate(lists, t);
    PushKeeps(infos, lists[o], c, o);
    var infos1 := Push(infos, c, heads[o], o);
    forall q, f | 0 <= q < ORDER_COUNT && q != o && f in lists[q]
      ensures f in infos1 && infos1[f] == infos[f]
    {
      assert Linked(infos, lists[q], q);
      assert f in infos;
      assert FreeAt(t, f, q);
    }
    ReplaceList(infos, infos1, heads, lists, o, [c] + lists[o]);
  }

  /** Linking and unlinking leave every used page used. */
  lemma UnlinkUsed(infos: Infos, s: nat)
    requires s in infos && infos[s].Unused?
    ensures Unlink(infos, s).Keys == infos.Keys
    ensures forall f :: f in infos ==> (infos[f].Used? <==> Unlink(infos, s)[f].Used?)
  {
  }

  lemma PushUsed(infos: Infos, c: nat, l: Option<nat>, o: nat)
    requires c in infos
    ensures Push(infos, c, l, o).Keys == infos.Keys
    ensures forall f :: f in infos && f != c ==> (infos[f].Used? <==> Push(infos, c, l, o)[f].Used?)
  {
  }

  /** A list and the tiling lose the same free block. */
  lemma IndexWithout(lists: seq<seq<nat>>, t: Tiling, t1: Tiling, o: nat, i: nat)
    requires Indexed(lists, t) && o < ORDER_COUNT && i < |lists[o]| && NoRepeats(lists[o])
    requires forall f, k :: FreeAt(t1, f, k) <==> FreeAt(t, f, k) && !(f == lists[o][i] && k == o)
    ensures Indexed(lists[o := Without(lists[o], i)], t1)
  {
    hide FreeAt;
    WithoutElements(lists[o], i);
    var lists1 := lists[o := Without(lists[o], i)];
    forall q, f | 0 <= q < ORDER_COUNT
      ensures f in lists1[q] <==> FreeAt(t1, f, q)
    {
      assert f in lists[q] <==> FreeAt(t, f, q);
    }
  }

  lemma IndexWith(lists: seq<seq<nat>>, t: Tiling, t1: Tiling, o: nat, c: nat)
    requires Indexed(lists, t) && o < ORDER_COUNT
    requires forall f, k :: FreeAt(t1, f, k) <==> FreeAt(t, f, k) || (f == c && k == o)
    ensures Indexed(lists[o := [c] + lists[o]], t1)
  {
    hide FreeAt;
    var lists1 := lists[o := [c] + lists[o]];
    forall q, f | 0 <= q < ORDER_COUNT
      ensures f in lists1[q] <==> FreeAt(t1, f, q)
    {
      assert f in lists[q] <==> FreeAt(t, f, q);
    }
  }

  // ----- the effect of each step on the free blocks -----

  lemma TakeFree(t: Tiling, f: nat, o: nat)
    requires FreeAt(t, f, o)
    ensures forall g, k :: FreeAt(Take(t, f), g, k) <==> FreeAt(t, g, k) && !(g == f && k == o)
  {
  }

  lemma SplitStepFree(t: Tiling, owned: set<nat>, f: nat)
    requires Tiled(t, owned) && f in t && t[f].order > 0 && t[f].status.Live?
    ensures var o := t[f].order - 1;
            forall g, k :: FreeAt(SplitStep(t, f), g, k) <==> FreeAt(t, g, k) || (g == f + Pow2(o) && k == o)
  {
    hide Pow2, Tiled;
    Pow2Positive(t[f].order - 1);
    SplitTarget(t, owned, f);
  }

  lemma MergeStepFree(t: Tiling, c: nat)
    requires c in t && CanMerge(t, c) && t[c].status.Live? && Aligned(c, t[c].order)
    ensures var m := t[c].order;
            forall g, k :: FreeAt(MergeStep(t, c), g, k) <==> FreeAt(t, g, k) && !(g == FlipBit(c, m) && k == m)
  {
    hide Aligned, FlipBit, ClearBit, Pow2;
    Halves(c, t[c].order);
  }

  lemma ReleaseFree(t: Tiling, c: nat)
    requires c in t && t[c].status.Live?
    ensures forall g, k :: FreeAt(Release(t, c), g, k) <==> FreeAt(t, g, k) || (g == c && k == t[c].order)
  {
  }

  // ----- whole steps -----

  /** Popping a free block and keeping it as a live one. */
  lemma PopKeeps(infos: Infos, heads: seq<Option<nat>>, lists: seq<seq<nat>>, t: Tiling, o: nat)
    requires Consistent(infos, heads, lists, t, None) && o < ORDER_COUNT && lists[o] != []
    ensures var f := lists[o][0];
            && FreeAt(t, f, o) && f in infos && infos[f].Unused? && heads[o] == Some(f)
            && infos[f].prev == P2Frame(None, o)
            && infos[f].next.order == o
            && (infos[f].next.frame.Some? ==>
                  var n := infos[f].next.frame.value; n in infos && infos[n].Unused? && infos[n].prev == P2Frame(Some(f), o))
            && Consistent(Unlink(infos, f), heads[o := infos[f].next.frame], lists[o := Without(lists[o], 0)], Take(t, f), Some(f))
  {
    hide Unlink, Without, Good, Tiled;
    var f := lists[o][0];
    assert Linked(infos, lists[o], o);
    assert f in lists[o];
    assert FreeAt(t, f, o);
    UnlinkLists(infos, heads, lists, t, o, 0);
    UnlinkKeeps(infos, lists[o], 0, o);
    UnlinkUsed(infos, f);
    TakeFree(t, f, o);
    IndexWithout(lists, t, Take(t, f), o, 0);
    TakeGood(t, infos.Keys, f);
    assert infos[f] == Node(lists[o], 0, o);
    if |lists[o]| > 1 {
      assert infos[lists[o][1]] == Node(lists[o], 1, o);
    }
  }

  lemma TakeGood(t: Tiling, owned: set<nat>, f: nat)
    requires Good(t, owned) && f in t
    ensures Good(Take(t, f), owned)
  {
    SetStatus(t, owned, f, Live);
    TakeMaximal(t, f);
  }

  lemma SplitStepGood(t: Tiling, owned: set<nat>, f: nat)
    requires Good(t, owned) && f in t && t[f].order > 0 && t[f].status.Live?
    ensures Good(SplitStep(t, f), owned)
    ensures f + Pow2(t[f].order - 1) !in t && f + Pow2(t[f].order - 1) in owned && f + Pow2(t[f].order - 1) != f
  {
    hide *;
    GoodParts(t, owned);
    SplitStepTiled(t, owned, f);
    SplitStepMaximal(t, owned, f);
    SplitTarget(t, owned, f);
    SplitTargetOwned(t, owned, f);
    GoodParts(SplitStep(t, f), owned);
  }

  lemma GoodParts(t: Tiling, owned: set<nat>)
    ensures Good(t, owned) <==> Tiled(t, owned) && Maximal(t)
  {
  }

  lemma SplitTargetOwned(t: Tiling, owned: set<nat>, f: nat)
    requires Tiled(t, owned) && f in t && t[f].order > 0
    ensures f + Pow2(t[f].order - 1) in owned && Pow2(t[f].order - 1) > 0
  {
    Pow2Double(t[f].order - 1);
    assert f + Pow2(t[f].order - 1) in Run(f, t[f].order);
  }

  /** One round of the split loop, into an empty list. */
  lemma SplitRound(infos: Infos, heads: seq<Option<nat>>, lists: seq<seq<nat>>, t: Tiling, f: nat)
    requires Consistent(infos, heads, lists, t, Some(f))
    requires f in t && t[f].status.Live? && 0 < t[f].order < ORDER_COUNT && lists[t[f].order - 1] == []
    ensures var o := t[f].order - 1; var hi := f + Pow2(o);
            && hi in infos && heads[o] == None
            && Consistent(infos[hi := Unused(P2Frame(None, o), P2Frame(None, o))], heads[o := Some(hi)],
                          lists[o := [hi]], SplitStep(t, f), Some(f))
  {
    hide Pow2, Good, Tiled, Maximal;
    var o := t[f].order - 1;
    var hi := f + Pow2(o);
    GoodParts(t, infos.Keys);
    SplitStepGood(t, infos.Keys, f);
    SplitStepFree(t, infos.Keys, f);
    PushLists(infos, heads, lists, t, o, hi);
    PushUsed(infos, hi, None, o);
    IndexWith(lists, t, SplitStep(t, f), o, hi);
    assert [hi] + lists[o] == [hi];
    var infos1 := infos[hi := Unused(P2Frame(None, o), P2Frame(None, o))];
    assert infos1 == Push(infos, hi, None, o);
    assert infos1.Keys == infos.Keys;
  }

  /** A live block's head is in no list, so its info is free to change. */
  lemma MarkUsed(infos: Infos, heads: seq<Option<nat>>, lists: seq<seq<nat>>, t: Tiling, f: nat)
    requires Consistent(infos, heads, lists, t, Some(f)) && f in infos
    requires forall k :: !FreeAt(t, f, k)
    ensures Consistent(infos[f := Used], heads, lists, t, None)
  {
    hide Good;
    var infos1 := infos[f := Used];
    assert infos1.Keys == infos.Keys;
    forall o | 0 <= o < ORDER_COUNT
      ensures Linked(infos1, lists[o], o)
    {
      assert !FreeAt(t, f, o);
      LinkedFrame(infos, infos1, lists[o], o);
    }
  }

  /** A free head is in the list of its order, and its links say so. */
  lemma FreeInfo(infos: Infos, heads: seq<Option<nat>>, lists: seq<seq<nat>>, t: Tiling, s: nat, k: nat)
    requires AllLinked(infos, heads, lists) && Indexed(lists, t) && FreeAt(t, s, k) && k < ORDER_COUNT
    ensures s in lists[k] && s in infos && infos[s].Unused? && infos[s].next.order == k
  {
    hide FreeAt;
    assert s in lists[k];
    assert Linked(infos, lists[k], k);
    var i :| 0 <= i < |lists[k]| && lists[k][i] == s;
    assert infos[s] == Node(lists[k], i, k);
  }

  /** The test the merge loop makes on the sibling's page info is exactly whether it can merge. */
  lemma SiblingTest(infos: Infos, heads: seq<Option<nat>>, lists: seq<seq<nat>>, t: Tiling, c: nat)
    requires Consistent(infos, heads, lists, t, Some(c)) && c in t && t[c].order < MAX_ORDER
    ensures var m, s := t[c].order, FlipBit(c, t[c].order);
            && (CanMerge(t, c) <==> s in infos && infos[s].Unused? && infos[s].next.order >= m)
            && (CanMerge(t, c) ==> infos[s].next.order == m && |lists| == ORDER_COUNT && s in lists[m])
  {
    hide Pow2, Aligned, FlipBit, ClearBit, Maximal, AllLinked, Indexed, Tiled;
    var m, s := t[c].order, FlipBit(c, t[c].order);
    ForOrdersLength(infos, heads, lists, t, c);
    BlockAligned(t, infos.Keys, c);
    Halves(c, m);
    if s in infos {
      BuddyIsHead(t, infos.Keys, c);
      if t[s].status.Free? {
        FreeInfo(infos, heads, lists, t, s, t[s].order);
      }
    } else {
      BlockPages(t, infos.Keys, s);
    }
  }

  lemma BlockPages(t: Tiling, owned: set<nat>, s: nat)
    requires Tiled(t, owned)
    ensures s in t ==> s in owned
  {
    if s in t {
      Pow2Positive(t[s].order);
      assert s in Run(s, t[s].order);
    }
  }

  /** One round of the merge loop. */
  lemma MergeRound(infos: Infos, heads: seq<Option<nat>>, lists: seq<seq<nat>>, t: Tiling, c: nat, i: nat)
    requires Consistent(infos, heads, lists, t, Some(c)) && c in t && t[c].status.Live? && CanMerge(t, c)
    requires i < |lists[t[c].order]| && lists[t[c].order][i] == FlipBit(c, t[c].order)
    ensures var m := t[c].order; var s := FlipBit(c, m); var l := Without(lists[m], i);
            && s in infos && infos[s].Unused?
            && Consistent(Unlink(infos, s), heads[m := First(l)], lists[m := l], MergeStep(t, c), Some(ClearBit(c, m)))
  {
    hide Unlink, Without, Pow2, Aligned, FlipBit, ClearBit, Tiled, Maximal, First;
    var m := t[c].order;
    var s := FlipBit(c, m);
    BlockAligned(t, infos.Keys, c);
    Halves(c, m);
    UnlinkLists(infos, heads, lists, t, m, i);
    UnlinkUsed(infos, s);
    MergeStepFree(t, c);
    assert Linked(infos, lists[m], m);
    IndexWithout(lists, t, MergeStep(t, c), m, i);
    MergeStepTiled(t, infos.Keys, c);
    MergeStepMaximal(t, c);
  }

  /** Putting the merged block in front of its list. */
  lemma ReleaseRound(infos: Infos, heads: seq<Option<nat>>, lists: seq<seq<nat>>, t: Tiling, c: nat)
    requires Consistent(infos, heads, lists, t, Some(c)) && c in t && t[c].status.Live? && !CanMerge(t, c)
    ensures var m := t[c].order;
            && m < ORDER_COUNT && c in infos
            && (heads[m].Some? ==> heads[m].value in infos && infos[heads[m].value].Unused? && heads[m].value != c)
            && Consistent(Push(infos, c, heads[m], m), heads[m := Some(c)], lists[m := [c] + lists[m]], Release(t, c), None)
  {
    hide Pow2, Aligned, FlipBit, ClearBit, Tiled, Maximal, Push;
    var m := t[c].order;
    BlockAligned(t, infos.Keys, c);
    BlockPages(t, infos.Keys, c);
    SetStatus(t, infos.Keys, c, Free);
    ReleaseMaximal(t, infos.Keys, c);
    PushLists(infos, heads, lists, t, m, c);
    PushUsed(infos, c, heads[m], m);
    ReleaseFree(t, c);
    IndexWith(lists, t, Release(t, c), m, c);
    assert Linked(infos, lists[m], m);
    if lists[m] != [] {
      assert infos[lists[m][0]] == Node(lists[m], 0, m);
      assert lists[m][0] in lists[m];
    }
  }

  // ----- frame 0 -----

  /** Freeing the live block at `f` completes a free run that starts where its size is, below the
      largest order. The buddy of that run would be at frame 0. */
  ghost predicate MeetsFrameZero(t: Tiling, f: nat)
    requires f in t
  {
    exists k | 0 <= k < MAX_ORDER :: InRun(f, Pow2(k), k) && Run(Pow2(k), k) <= PagesOf(t, Free) + Run(f, t[f].order)
  }

  lemma {:induction false} Pow2Aligned(k: nat)
    ensures Aligned(Pow2(k), k)
    decreases k
  {
    if k > 0 {
      Pow2Aligned(k - 1);
    }
  }

  /** The merge loop ends at a block whose buddy is frame 0 exactly when the pages say so. */
  lemma MeetsFrameZeroIff(t: Tiling, owned: set<nat>, f: nat)
    requires Good(t, owned) && 0 !in owned && f in t && t[f].status.Live?
    ensures MergeUp(t, f).1 in MergeUp(t, f).0
    ensures var (t1, c) := MergeUp(t, f);
            MeetsFrameZero(t, f) <==> t1[c].order < MAX_ORDER && c == Pow2(t1[c].order)
  {
    hide Pow2, Aligned, Range, Tiled, Maximal, PagesOf, MergeUp;
    MergeUpKeeps(t, owned, f);
    FreeKeeps(t, owned, f);
    var (t1, c) := MergeUp(t, f);
    var t2 := FreeTiling(t, f);
    Pow2Positive(t[f].order);
    assert f in Run(f, t[f].order);
    if MeetsFrameZero(t, f) {
      var k :| 0 <= k < MAX_ORDER && InRun(f, Pow2(k), k) && Run(Pow2(k), k) <= PagesOf(t, Free) + Run(f, t[f].order);
      Pow2Aligned(k);
      var b := FreeRunInBlock(t2, owned, Pow2(k), k);
      AwayFromZero(t2, owned, b, k);
      assert HeadOf(t2, b, f) && HeadOf(t2, c, f);
      TiledIsDisjoint(t2, owned);
      HeadUnique(t2, b, c, f);
    }
    if t1[c].order < MAX_ORDER && c == Pow2(t1[c].order) {
      var k := t1[c].order;
      assert InRun(f, Pow2(k), k) && Run(Pow2(k), k) <= PagesOf(t, Free) + Run(f, t[f].order);
    }
  }

  lemma TiledIsDisjoint(t: Tiling, owned: set<nat>)
    requires Tiled(t, owned)
    ensures Disjoint(t)
  {
  }

  lemma AwayFromZero(t: Tiling, owned: set<nat>, b: nat, k: nat)
    requires Tiled(t, owned) && 0 !in owned && b in t && k <= t[b].order
    requires b <= Pow2(k) && Pow2(k) + Pow2(k) <= b + Pow2(t[b].order)
    ensures t[b].order == k && b == Pow2(k)
  {
    hide Pow2, Aligned, Tiled;
    var j := t[b].order;
    BlockPages(t, owned, b);
    BlockAligned(t, owned, b);
    Pow2Grows(k, j);
    if b < Pow2(j) {
      AlignedBelow(b, j);
    }
  }

  lemma AlignedBelow(b: nat, j: nat)
    requires Aligned(b, j) && b < Pow2(j)
    ensures b == 0
  {
    hide Aligned, Pow2;
    AlignedIsRemainder(b, j);
  }

  /** It cannot happen when no frame below the size of the largest block is managed. */
  lemma HighFramesNeverMeetZero(t: Tiling, owned: set<nat>, f: nat)
    requires Tiled(t, owned) && f in t
    requires forall p :: p in owned ==> p >= Pow2(MAX_ORDER)
    ensures !MeetsFrameZero(t, f)
  {
    BlockPages(t, owned, f);
    forall k | 0 <= k < MAX_ORDER
      ensures !InRun(f, Pow2(k), k)
    {
      Pow2Grows(k, MAX_ORDER);
    }
  }

  // ----- small facts the methods use -----

  lemma NonemptyList(infos: Infos, heads: seq<Option<nat>>, lists: seq<seq<nat>>, t: Tiling, o: nat)
    requires Consistent(infos, heads, lists, t, None) && o < ORDER_COUNT
    ensures |heads| == ORDER_COUNT && |lists| == ORDER_COUNT
    ensures heads[o].Some? ==> lists[o] != [] && lists[o][0] == heads[o].value
  {
  }

  lemma ForOrdersLength(infos: Infos, heads: seq<Option<nat>>, lists: seq<seq<nat>>, t: Tiling, f: nat)
    requires Consistent(infos, heads, lists, t, Some(f))
    ensures |heads| == ORDER_COUNT && |lists| == ORDER_COUNT
  {
  }

  /** The first block has no predecessor, so only its successor is relinked. */
  lemma UnlinkFirst(infos: Infos, f: nat)
    requires f in infos && infos[f].Unused? && infos[f].prev.frame == None
    ensures Unlink(infos, f) == SetPrev(infos, infos[f].next.frame, infos[f].prev)
  {
  }

  lemma UnlinkIs(infos: Infos, s: nat)
    requires s in infos && infos[s].Unused?
    ensures Unlink(infos, s) == SetPrev(SetNext(infos, infos[s].prev.frame, infos[s].next), infos[s].next.frame, infos[s].prev)
  {
  }

  lemma PushIs(infos: Infos, c: nat, l: Option<nat>, o: nat)
    requires l != Some(c)
    ensures Push(infos, c, l, o) == SetPrev(infos[c := Unused(P2Frame(None, o), P2Frame(l, o))], l, P2Frame(Some(c), o))
  {
  }

  lemma AllocTilingIs(t: Tiling, f: nat, min: nat)
    requires f in t
    ensures AllocTiling(t, f, min) == Split(Take(t, f), f, min)
  {
  }

  lemma NoLargerBlocks(t: Tiling, owned: set<nat>)
    requires Good(t, owned)
    ensures forall f: nat, k: nat :: FreeAt(t, f, k) ==> k <= MAX_ORDER
  {
  }

  lemma BlockKeys(infos: Infos, heads: seq<Option<nat>>, lists: seq<seq<nat>>, t: Tiling, f: nat)
    requires Consistent(infos, heads, lists, t, Some(f)) && f in t
    ensures f in infos
  {
    BlockPages(t, infos.Keys, f);
  }

  lemma OrderBound(infos: Infos, heads: seq<Option<nat>>, lists: seq<seq<nat>>, t: Tiling, f: nat)
    requires Consistent(infos, heads, lists, t, Some(f)) && f in t
    ensures t[f].order <= MAX_ORDER
  {
  }

  lemma ExceptOne(infos: Infos, heads: seq<Option<nat>>, lists: seq<seq<nat>>, t: Tiling, f: nat)
    requires Consistent(infos, heads, lists, t, None)
    ensures Consistent(infos, heads, lists, t, Some(f))
  {
  }

  lemma CountAlloc(t: Tiling, owned: set<nat>, f: nat, min: nat)
    requires Good(t, owned) && f in t && t[f].status.Free? && min <= t[f].order
    ensures var t1 := AllocTiling(t, f, min);
            && |PagesOf(t1, Live)| == |PagesOf(t, Live)| + Pow2(min)
            && PagesOf(t1, Free) == PagesOf(t, Free) - Run(f, min)
            && PagesOf(t1, Live) == PagesOf(t, Live) + Run(f, min)
  {
    hide *;
    AllocKeeps(t, owned, f, min);
    RunSize(f, min);
  }

  lemma CountFree(t: Tiling, owned: set<nat>, f: nat)
    requires Good(t, owned) && f in t && t[f].status.Live?
    ensures var t1 := FreeTiling(t, f);
            && |PagesOf(t1, Live)| == |PagesOf(t, Live)| - Pow2(t[f].order)
            && PagesOf(t1, Free) == PagesOf(t, Free) + Run(f, t[f].order)
            && PagesOf(t1, Live) == PagesOf(t, Live) - Run(f, t[f].order)
  {
    hide *;
    FreeKeeps(t, owned, f);
    RunSize(f, t[f].order);
    var l1, run := PagesOf(FreeTiling(t, f), Live), Run(f, t[f].order);
    assert PagesOf(t, Live) == l1 + run;
  }

  lemma FreeTilingIs(t: Tiling, f: nat)
    requires f in t
    ensures MergeUp(t, f).1 in MergeUp(t, f).0 && FreeTiling(t, f) == Release(MergeUp(t, f).0, MergeUp(t, f).1)
  {
    MergeUpHead(t, f);
  }

  lemma LargestStops(t: Tiling, c: nat)
    requires c in t && t[c].order >= MAX_ORDER
    ensures !CanMerge(t, c)
  {
  }

  lemma MergeStepHead(t: Tiling, c: nat)
    requires c in t
    ensures var lo := ClearBit(c, t[c].order); lo in MergeStep(t, c) && MergeStep(t, c)[lo] == Block(t[c].order + 1, Live)
  {
  }

  /** The sibling is frame 0 only for a block as far from 0 as it is long; there is nothing to merge. */
  lemma SiblingZero(infos: Infos, heads: seq<Option<nat>>, lists: seq<seq<nat>>, t: Tiling, c: nat)
    requires Consistent(infos, heads, lists, t, Some(c)) && c in t
    ensures FlipBit(c, t[c].order) == 0 <==> c == Pow2(t[c].order)
    ensures FlipBit(c, t[c].order) == 0 ==> !CanMerge(t, c)
  {
    hide Pow2, Aligned, FlipBit, ClearBit, Maximal, Tiled, AllLinked, Indexed, HeadsUsed;
    var m := t[c].order;
    BlockAligned(t, infos.Keys, c);
    Halves(c, m);
    Pow2Double(m);
    BlockPages(t, infos.Keys, 0);
    BlockPages(t, infos.Keys, c);
    if c == Pow2(m) {
      PowerBuddy(c, m);
    }
  }

  lemma PowerBuddy(c: nat, m: nat)
    requires c == Pow2(m) && Aligned(c, m)
    ensures FlipBit(c, m) == 0
  {
    hide Aligned, Pow2, ClearBit, FlipBit;
    Halves(c, m);
    Pow2Double(m);
    if c == ClearBit(c, m) {
      AlignedBelow(c, m + 1);
    }
  }

  ghost function Position(infos: Infos, heads: seq<Option<nat>>, lists: seq<seq<nat>>, t: Tiling, c: nat): (i: nat)
    requires Consistent(infos, heads, lists, t, Some(c)) && c in t && CanMerge(t, c)
    ensures t[c].order < |lists| == |heads| == ORDER_COUNT && i < |lists[t[c].order]|
    ensures lists[t[c].order][i] == FlipBit(c, t[c].order)
  {
    SiblingTest(infos, heads, lists, t, c);
    var i :| 0 <= i < |lists[t[c].order]| && lists[t[c].order][i] == FlipBit(c, t[c].order);
    i
  }

  /** What the links of the `i`th block of a list say about the head of the list without it. */
  lemma SiblingNode(infos: Infos, heads: seq<Option<nat>>, lists: seq<seq<nat>>, t: Tiling, o: nat, i: nat)
    requires AllLinked(infos, heads, lists) && Indexed(lists, t) && o < ORDER_COUNT && i < |lists[o]|
    ensures var s := lists[o][i]; var l := Without(lists[o], i);
            && s in infos && infos[s].Unused?
            && (infos[s].prev.frame.Some? ==> First(l) == heads[o])
            && (infos[s].prev.frame.None? ==> First(l) == infos[s].next.frame && heads[o] == Some(s))
  {
    assert Linked(infos, lists[o], o);
    UnlinkKeeps(infos, lists[o], i, o);
    assert infos[lists[o][i]] == Node(lists[o], i, o);
  }

  class FrameAllocator {
    /** The page infos of all sections. */
    var infos: Infos
    /** `for_orders`: the first free block of each order. */
    var forOrders: seq<Option<nat>>
    var usedFrames: nat
    ghost var tiling: Tiling
    ghost var lists: seq<seq<nat>>

    ghost predicate Valid()
      reads this
    {
      && Consistent(infos, forOrders, lists, tiling, None)
      && usedFrames == |PagesOf(tiling, Live)|
    }

    /** A free-list state that boot has set up. */
    constructor (infos: Infos, forOrders: seq<Option<nat>>, ghost lists: seq<seq<nat>>, ghost tiling: Tiling)
      requires Consistent(infos, forOrders, lists, tiling, None) && PagesOf(tiling, Live) == {}
      ensures Valid() && this.infos == infos && this.forOrders == forOrders && this.tiling == tiling && usedFrames == 0
    {
      this.infos, this.forOrders, this.usedFrames, this.tiling, this.lists := infos, forOrders, 0, tiling, lists;
    }

    /** `allocate_p2frame` */
    method Allocate(min: nat) returns (r: Option<nat>)
      requires Valid()
      modifies this
      ensures Valid() && infos.Keys == old(infos.Keys)
      // none is left exactly when no naturally aligned run of that size is free
      ensures r.None? <==> min > MAX_ORDER || !exists f :: Aligned(f, min) && RunFree(old(tiling), f, min)
      ensures r.None? ==> infos == old(infos) && forOrders == old(forOrders) && tiling == old(tiling) && usedFrames == old(usedFrames)
      // otherwise the smallest block that is large enough is cut down to the size asked for
      ensures r.Some? ==>
                && r.value in old(tiling) && old(tiling)[r.value].status.Free? && min <= old(tiling)[r.value].order
                && (forall g, k :: FreeAt(old(tiling), g, k) && min <= k ==> old(tiling)[r.value].order <= k)
                && tiling == AllocTiling(old(tiling), r.value, min)
                && usedFrames == old(usedFrames) + Pow2(min)
                && PagesOf(tiling, Free) == PagesOf(old(tiling), Free) - Run(r.value, min)
                && PagesOf(tiling, Live) == PagesOf(old(tiling), Live) + Run(r.value, min)
    {
      hide Good, AllLinked, Indexed, HeadsUsed, Unlink, Push, Without, Pow2, PagesOf, Aligned, RunFree, AllocTiling;
      var o := FindOrder(min);
      if o == ORDER_COUNT {
        return None;
      }
      ghost var t0 := tiling;
      ghost var owned := infos.Keys;
      assert Good(t0, owned);
      NonemptyList(infos, forOrders, lists, tiling, o);
      var frame := forOrders[o].value;
      PopKeeps(infos, forOrders, lists, tiling, o);
      var next := infos[frame].next;
      ghost var infos0 := infos;
      if next.frame.Some? {
        infos := SetPrev(infos, next.frame, P2Frame(None, o));
      }
      UnlinkFirst(infos0, frame);
      assert infos == Unlink(infos0, frame);
      forOrders := forOrders[o := next.frame];
      lists := lists[o := Without(lists[o], 0)];
      tiling := Take(tiling, frame);
      SplitDown(frame, min, o);
      assert tiling == AllocTiling(t0, frame, min) by { AllocTilingIs(t0, frame, min); }
      usedFrames := usedFrames + Pow2(min);
      BlockKeys(infos, forOrders, lists, tiling, frame);
      MarkUsed(infos, forOrders, lists, tiling, frame);
      infos := infos[frame := Used];
      r := Some(frame);
      CountAlloc(t0, owned, frame, min);
    }

    method FindOrder(min: nat) returns (o: nat)
      requires Valid()
      ensures min <= ORDER_COUNT ==> min <= o
      ensures o <= ORDER_COUNT && |forOrders| == ORDER_COUNT && |lists| == ORDER_COUNT
      ensures o < ORDER_COUNT ==> min <= o && forOrders[o].Some?
      ensures o == ORDER_COUNT <==> min > MAX_ORDER || !exists f :: Aligned(f, min) && RunFree(tiling, f, min)
      ensures forall q | min <= q < o :: lists[q] == []
      ensures forall g, k :: FreeAt(tiling, g, k) && min <= k ==> o <= k
    {
      hide Good, Linked, HeadsUsed, Pow2, PagesOf, Aligned, RunFree;
      if min > MAX_ORDER {
        NoLargerBlocks(tiling, infos.Keys);
        return ORDER_COUNT;
      }
      o := min;
      while o < ORDER_COUNT && forOrders[o].None?
        invariant min <= o <= ORDER_COUNT
        invariant forall q | min <= q < o :: forOrders[q].None?
      {
        o := o + 1;
      }
      assert forall q | min <= q < o :: lists[q] == [];
      NoLargerBlocks(tiling, infos.Keys);
      forall g: nat, k: nat | FreeAt(tiling, g, k) && min <= k
        ensures o <= k
      {
        assert g in lists[k];
      }
      ServableIff(tiling, infos.Keys, min);
      forall b | b in tiling && tiling[b].status.Free? && min <= tiling[b].order
        ensures o <= tiling[b].order < ORDER_COUNT
      {
        assert FreeAt(tiling, b, tiling[b].order);
      }
      if o < ORDER_COUNT {
        assert lists[o][0] in lists[o];
        assert FreeAt(tiling, lists[o][0], o);
      }
    }

    /** The split loop: the upper half of each size is freed into its empty list. */
    method SplitDown(frame: nat, min: nat, top: nat)
      requires Consistent(infos, forOrders, lists, tiling, Some(frame))
      requires min <= top <= MAX_ORDER && frame in tiling && tiling[frame] == Block(top, Live)
      requires |lists| == ORDER_COUNT && forall q | min <= q < top :: lists[q] == []
      modifies this
      ensures Consistent(infos, forOrders, lists, tiling, Some(frame))
      ensures tiling == Split(old(tiling), frame, min)
      ensures infos.Keys == old(infos.Keys) && usedFrames == old(usedFrames)
      ensures frame in tiling && tiling[frame] == Block(min, Live)
    {
      hide Good, AllLinked, Indexed, HeadsUsed, Pow2;
      var order := top;
      while order > min
        invariant min <= order <= top
        invariant Consistent(infos, forOrders, lists, tiling, Some(frame))
        invariant frame in tiling && tiling[frame] == Block(order, Live)
        invariant |lists| == ORDER_COUNT && forall q | min <= q < order :: lists[q] == []
        invariant Split(tiling, frame, min) == Split(old(tiling), frame, min)
        invariant infos.Keys == old(infos.Keys) && usedFrames == old(usedFrames)
      {
        order := order - 1;
        var hi := frame + Pow2(order);
        ForOrdersLength(infos, forOrders, lists, tiling, frame);
        SplitRound(infos, forOrders, lists, tiling, frame);
        Pow2Positive(order);
        infos := infos[hi := Unused(P2Frame(None, order), P2Frame(None, order))];
        forOrders := forOrders[order := Some(hi)];
        lists := lists[order := [hi]];
        tiling := SplitStep(tiling, frame);
      }
    }

    /** Takes a free sibling out of its list. */
    method UnlinkSibling(sibling: nat, order: nat, ghost current: nat)
      requires Consistent(infos, forOrders, lists, tiling, Some(current))
      requires current in tiling && tiling[current] == Block(order, Live) && sibling == FlipBit(current, order)
      requires CanMerge(tiling, current)
      modifies this
      ensures tiling == MergeStep(old(tiling), current)
      ensures Consistent(infos, forOrders, lists, tiling, Some(ClearBit(current, order)))
      ensures infos.Keys == old(infos.Keys) && usedFrames == old(usedFrames)
    {
      hide Good, AllLinked, Indexed, HeadsUsed, Unlink, Without, First, Pow2, CanMerge, MergeStep, FlipBit, ClearBit;
      ghost var i := Position(infos, forOrders, lists, tiling, current);
      MergeRound(infos, forOrders, lists, tiling, current, i);
      SiblingNode(infos, forOrders, lists, tiling, order, i);
      UnlinkUsed(infos, sibling);
      ghost var infos0, heads0 := infos, forOrders;
      var prev, next := infos[sibling].prev, infos[sibling].next;
      if prev.frame.Some? {
        infos := SetNext(infos, prev.frame, next);
      } else {
        forOrders := forOrders[order := next.frame];
      }
      if next.frame.Some? {
        infos := SetPrev(infos, next.frame, prev);
      }
      assert infos == Unlink(infos0, sibling) by { UnlinkIs(infos0, sibling); }
      assert forOrders == heads0[order := First(Without(lists[order], i))];
      lists := lists[order := Without(lists[order], i)];
      tiling := MergeStep(tiling, current);
    }

    /** The merge loop. Computing the sibling of a block panics when that is frame 0. */
    method MergeFree(f: nat, order: nat) returns (panicked: bool, current: nat, merged: nat)
      requires Consistent(infos, forOrders, lists, tiling, Some(f))
      requires f in tiling && tiling[f] == Block(order, Live)
      modifies this
      ensures infos.Keys == old(infos.Keys) && usedFrames == old(usedFrames)
      ensures Consistent(infos, forOrders, lists, tiling, Some(current))
      ensures current in tiling && tiling[current] == Block(merged, Live) && !CanMerge(tiling, current)
      ensures MergeUp(old(tiling), f) == (tiling, current)
      ensures panicked <==> merged < MAX_ORDER && current == Pow2(merged)
    {
      hide Good, AllLinked, Indexed, HeadsUsed, Pow2, CanMerge, MergeStep, FlipBit, ClearBit;
      current, merged := f, order;
      OrderBound(infos, forOrders, lists, tiling, current);
      while merged < MAX_ORDER
        invariant merged <= MAX_ORDER
        invariant Consistent(infos, forOrders, lists, tiling, Some(current))
        invariant current in tiling && tiling[current] == Block(merged, Live)
        invariant MergeUp(tiling, current) == MergeUp(old(tiling), f)
        invariant infos.Keys == old(infos.Keys) && usedFrames == old(usedFrames)
      {
        var sibling := FlipBit(current, merged);
        SiblingTest(infos, forOrders, lists, tiling, current);
        SiblingZero(infos, forOrders, lists, tiling, current);
        if sibling == 0 {
          return true, current, merged;
        }
        if sibling !in infos || infos[sibling].Used? || infos[sibling].next.order < merged {
          return false, current, merged;
        }
        assert infos[sibling].next.order == merged;
        ghost var t := tiling;
        UnlinkSibling(sibling, merged, current);
        MergeStepHead(t, current);
        current := ClearBit(current, merged);
        merged := merged + 1;
      }
      LargestStops(tiling, current);
      panicked := false;
    }

    /** `deallocate_p2frame` */
    method Deallocate(f: nat, order: nat) returns (panicked: bool)
      requires Valid()
      requires f in tiling && tiling[f] == Block(order, Live)
      modifies this
      ensures panicked <==> MeetsFrameZero(old(tiling), f)
      ensures !panicked ==>
                && Valid() && infos.Keys == old(infos.Keys)
                && tiling == FreeTiling(old(tiling), f)
                && usedFrames == old(usedFrames) - Pow2(order)
                && PagesOf(tiling, Free) == PagesOf(old(tiling), Free) + Run(f, order)
                && PagesOf(tiling, Live) == PagesOf(old(tiling), Live) - Run(f, order)
    {
      hide Good, AllLinked, Indexed, HeadsUsed, Push, Pow2, PagesOf, FreeTiling, MergeUp, CanMerge, MeetsFrameZero;
      ghost var t0 := tiling;
      MeetsFrameZeroIff(t0, infos.Keys, f);
      ExceptOne(infos, forOrders, lists, tiling, f);
      CountFree(t0, infos.Keys, f);
      FreeTilingIs(t0, f);
      var current, merged;
      panicked, current, merged := MergeFree(f, order);
      if panicked {
        return;
      }
      ReleaseRound(infos, forOrders, lists, tiling, current);
      ForOrdersLength(infos, forOrders, lists, tiling, current);
      ghost var infos0 := infos;
      infos := infos[current := Unused(P2Frame(None, merged), P2Frame(None, merged))];
      var oldHead := forOrders[merged];
      forOrders := forOrders[merged := Some(current)];
      if oldHead.Some? {
        infos := infos[current := Unused(P2Frame(None, merged), P2Frame(oldHead, merged))];
        infos := SetPrev(infos, oldHead, P2Frame(Some(current), merged));
      }
      assert infos == Push(infos0, current, oldHead, merged) by { PushIs(infos0, current, oldHead, merged); }
      lists := lists[merged := [current] + lists[merged]];
      tiling := Release(tiling, current);
      PushUsed(infos0, current, oldHead, merged);
      usedFrames := usedFrames - Pow2(order);
    }
  }
}
