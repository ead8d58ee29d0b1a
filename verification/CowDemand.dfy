/**
 What a clone needs, read off the state before it: how many frames, how many references, and at
 which page it stops if it cannot have them.
 */
module CowDemand {
  import opened Common
  import opened RefCounts
  import opened CowModel
  import opened CowEager
  import opened CowInvariant
  import opened CowProofs
  import opened CowCopy
  import opened CowClone
  import opened CowPlain

  /** What copying one page asks for: nothing, one more reference to its frame, or a free frame. A
      free frame goes to a shared page that has none yet (`Fresh`), to one that is still on a
      copy-on-write frame (`Move`), or to the copy of a private page on a frame of kind `Shared`
      (`Away`). */
  datatype Demand = Skip | Join | Fresh | Move | Away

  function DemandOf(k: Kernel, l: Loc): Demand
    requires Sound(k) && l in k.attrs
  {
    if l !in k.entries then (if k.attrs[l].shared then Fresh else Skip)
    else
      var rc := k.rc[k.entries[l].frame];
      if k.attrs[l].shared then (if rc.Cow? then Move else Join)
      else (if rc.Shared? then Away else Join)
  }

  function Takes(d: Demand): nat {
    if d.Fresh? || d.Move? || d.Away? then 1 else 0
  }

  /** A count that takes no further reference. */
  predicate Full(count: int) {
    count > RC_MAX
  }

  /** How copying `l` changes the count of frame `f`. */
  function Delta(k: Kernel, l: Loc, f: nat): int
    requires Sound(k) && l in k.attrs
  {
    if l !in k.entries || k.entries[l].frame != f then 0
    else match DemandOf(k, l) case Join => 1 case Move => -1 case _ => 0
  }

  /** The page cannot be copied when `free` frames are left and its frame has `count` references. */
  predicate Stuck(d: Demand, free: int, count: int) {
    match d
    case Skip => false
    case Join => Full(count)
    case Fresh => free <= 0
    case Move => free <= 0
    case Away => Full(count) || free <= 0
  }

  function CountOf(k: Kernel, l: Loc): int
    requires Sound(k) && l in k.attrs
  {
    if l in k.entries then Count(k.rc[k.entries[l].frame]) else 0
  }

  /** A count of one is never full, and full is what `add_ref` refuses. */
  lemma FullIsRefused(rc: RefCount)
    requires WellFormed(rc)
    ensures rc.Cow? ==> (AddRef(rc, CowKind).Refused? <==> Full(Count(rc)))
    ensures rc.Shared? ==> (AddRef(rc, SharedKind).Refused? <==> Full(Count(rc)))
    ensures rc.One? ==> AddRef(rc, CowKind) == Added(Cow(2)) && AddRef(rc, SharedKind) == Added(Shared(2)) && !Full(1)
    ensures AddRef(rc, CowKind).Added? ==> Count(AddRef(rc, CowKind).rc) == Count(rc) + 1 && AddRef(rc, CowKind).rc.Cow?
    ensures AddRef(rc, SharedKind).Added? ==> Count(AddRef(rc, SharedKind).rc) == Count(rc) + 1 && AddRef(rc, SharedKind).rc.Shared?
  {
  }

  // ----- one page -----

  /** What a successful copy of `src` to `dst` has done. */
  ghost predicate Paid(k: Kernel, k1: Kernel, src: Loc, dst: Loc)
    requires Sound(k) && src in k.attrs
  {
    var d := DemandOf(k, src);
    && |k1.pool| == |k.pool| - Takes(d) && k1.zero == k.zero && k1.nextLost == k.nextLost
    && (forall m :: m in k1.entries <==> m in k.entries || (m == dst && !d.Skip?) || (m == src && d.Fresh?))
    && (forall m :: m in k.entries && m != src ==> k1.entries[m].frame == k.entries[m].frame)
    && (forall f :: f in k.rc ==> f in k1.rc && Count(k1.rc[f]) == Count(k.rc[f]) + Delta(k, src, f))
  }

  /** What a copy that stopped at `src` has done. */
  ghost predicate Unpaid(k: Kernel, k1: Kernel, src: Loc)
    requires Sound(k) && src in k.attrs
  {
    var lost := DemandOf(k, src).Away? && !Full(CountOf(k, src));
    && (forall m :: m in k1.entries <==> m in k.entries || (lost && m == LostLoc(k.nextLost)))
    && k1.spaces == k.spaces && k1.nextLost == k.nextLost + (if lost then 1 else 0)
  }

  lemma OwnedOutcome(k: Kernel, src: Loc, dst: Loc)
    requires Ready(k, src) && FreshTarget(k, src, dst) && !k.attrs[src].shared
    ensures var r := OwnedArm(k, src, dst);
            if Stuck(DemandOf(k, src), |k.pool|, CountOf(k, src)) then r.CopyNoMem? && Unpaid(k, r.k, src)
            else r.Copied? && Paid(k, r.k, src, dst)
  {
    if src in k.entries {
      FullIsRefused(k.rc[k.entries[src].frame]);
    }
  }

  lemma SharedOutcome(k: Kernel, src: Loc, dst: Loc)
    requires Ready(k, src) && FreshTarget(k, src, dst) && k.attrs[src].shared && src in k.entries
    ensures var r := SharedArm(k, src, dst);
            if Stuck(DemandOf(k, src), |k.pool|, CountOf(k, src)) then r.CopyNoMem? && Unpaid(k, r.k, src)
            else r.Copied? && Paid(k, r.k, src, dst)
  {
    FullIsRefused(k.rc[k.entries[src].frame]);
  }

  lemma FreshOutcome(k: Kernel, src: Loc, dst: Loc)
    requires Ready(k, src) && FreshTarget(k, src, dst) && k.attrs[src].shared && src !in k.entries && k.pool != []
    requires Ready(Fill(k, src), src)
    ensures var r := SharedArm(Fill(k, src), src, dst);
            r.Copied? && Paid(k, r.k, src, dst)
  {
    FullIsRefused(One);
  }

  /** Copying one page succeeds exactly when what it asks for is there, and pays exactly that. */
  lemma CopyPageOutcome(k: Kernel, src: Loc, dst: Loc)
    requires Inv(k) && FreshTarget(k, src, dst) && src.PageLoc?
    ensures Sound(k)
    ensures var r := CopyPage(k, src, dst);
            var d := DemandOf(k, src);
            if !Stuck(d, |k.pool|, CountOf(k, src)) then r.Copied? && Paid(k, r.k, src, dst)
            else if d.Fresh? then r.CopyPanic?
            else r.CopyNoMem? && Unpaid(k, r.k, src)
  {
    InvIsReady(k, src);
    if !k.attrs[src].shared {
      OwnedArmIsCode(k, src, dst);
      OwnedOutcome(k, src, dst);
    } else if src in k.entries {
      SharedArmIsCode(k, src, dst);
      SharedOutcome(k, src, dst);
    } else if k.pool != [] {
      FillInv(k, src);
      assert EnsurePresent(k, src) == Some(Fill(k, src));
      InvIsReady(Fill(k, src), src);
      SharedArmIsCode(Fill(k, src), src, dst);
      FreshOutcome(k, src, dst);
    }
  }

  /** The entry of the copy is writable exactly when the page is shared and its grant is writable. */
  lemma CopyIsWritable(k: Kernel, src: Loc, dst: Loc)
    requires Sound(k) && src in k.attrs && src != dst && dst !in k.entries && CopyPage(k, src, dst).Copied?
    ensures var k1 := CopyPage(k, src, dst).k;
            dst in k1.entries ==> (k1.entries[dst].write <==> k.attrs[src].shared && k.attrs[src].write)
  {
  }

  /** Which frames turn from or to kind `Shared`, or to copy-on-write, when `src` is copied: only its own, and only
      when nobody else is on it. */
  lemma KindStays(k: Kernel, src: Loc, dst: Loc, m: Loc)
    requires Inv(k) && Plain(k) && FreshTarget(k, src, dst) && src.PageLoc? && m in k.entries && m != src
    requires k.entries[m].frame in k.rc
    ensures Sound(k)
    ensures var r := CopyPage(k, src, dst);
            r.Copied? ==>
              var f := k.entries[m].frame;
              f in r.k.rc && (r.k.rc[f].Shared? <==> k.rc[f].Shared?) && (f != k.zero && !k.rc[f].Cow? ==> !r.k.rc[f].Cow?)
  {
    var f := k.entries[m].frame;
    InvIsReady(k, src);
    if src in k.entries && k.entries[src].frame == f && k.rc[f].One? {
      SoleReference(k.entries, k.rc, src, m);
    }
    if !k.attrs[src].shared {
      OwnedArmIsCode(k, src, dst);
    } else if src in k.entries {
      SharedArmIsCode(k, src, dst);
    } else if k.pool != [] {
      assert k.pool[0] in k.pool;
      assert EnsurePresent(k, src) == Some(Fill(k, src));
    }
  }

  /** The other pages ask for the same after a page has been copied. */
  lemma DemandStays(k: Kernel, k1: Kernel, src: Loc, dst: Loc, m: Loc)
    requires Inv(k) && Plain(k) && FreshTarget(k, src, dst) && src.PageLoc? && src in k.attrs
    requires Sound(k) && CopyPage(k, src, dst) == Copied(k1) && Inv(k1) && Plain(k1)
    requires Paid(k, k1, src, dst) && k1.attrs == k.attrs[dst := k.attrs[src]]
    requires m in k.attrs && m != src && m != dst && m.PageLoc?
    ensures Sound(k1) && DemandOf(k1, m) == DemandOf(k, m)
    ensures CountOf(k1, m) == CountOf(k, m) + (if m in k.entries then Delta(k, src, k.entries[m].frame) else 0)
    ensures m in k1.entries <==> m in k.entries
    ensures m in k.entries ==> k1.entries[m].frame == k.entries[m].frame
  {
    if m in k.entries {
      KindStays(k, src, dst, m);
      if k.entries[m].frame == k.zero {
        ZeroIsNotOne(k, m);
        ZeroIsNotOne(k1, m);
      }
    }
  }

  // ----- many pages -----

  /** All pages are granted in space `s`. */
  ghost predicate Granted(k: Kernel, s: nat, pages: seq<nat>) {
    Sound(k) && forall i | 0 <= i < |pages| :: PageLoc(s, pages[i]) in k.attrs
  }

  /** The free frames that copying these pages takes. */
  ghost function Taken(k: Kernel, s: nat, pages: seq<nat>): nat
    requires Granted(k, s, pages)
  {
    if pages == [] then 0 else Takes(DemandOf(k, PageLoc(s, pages[0]))) + Taken(k, s, pages[1..])
  }

  /** The references to frame `f` that copying these pages adds. */
  ghost function Gained(k: Kernel, s: nat, pages: seq<nat>, f: nat): int
    requires Granted(k, s, pages)
  {
    if pages == [] then 0 else Delta(k, PageLoc(s, pages[0]), f) + Gained(k, s, pages[1..], f)
  }

  /** The free frames left when the pages before the `n`th have been copied. */
  ghost function FreeAt(k: Kernel, s: nat, pages: seq<nat>, n: nat): int
    requires Granted(k, s, pages) && n < |pages|
  {
    |k.pool| - Taken(k, s, pages[..n])
  }

  /** The count of the frame that the `n`th page is on, at that moment. */
  ghost function CountAt(k: Kernel, s: nat, pages: seq<nat>, n: nat): int
    requires Granted(k, s, pages) && n < |pages|
  {
    var l := PageLoc(s, pages[n]);
    CountOf(k, l) + (if l in k.entries then Gained(k, s, pages[..n], k.entries[l].frame) else 0)
  }

  /** The `n`th page cannot be copied although all before it were. */
  ghost predicate Blocked(k: Kernel, s: nat, pages: seq<nat>, n: nat)
    requires Granted(k, s, pages) && n < |pages|
  {
    Stuck(DemandOf(k, PageLoc(s, pages[n])), FreeAt(k, s, pages, n), CountAt(k, s, pages, n))
  }

  /** Where copying the pages stops. */
  ghost predicate StopsAt(k: Kernel, s: nat, pages: seq<nat>, n: nat)
    requires Granted(k, s, pages)
  {
    n < |pages| && Blocked(k, s, pages, n) && forall j | 0 <= j < n :: !Blocked(k, s, pages, j)
  }

  /** Page `m` asks for the same in `k1` as in `k`, up to the count of its frame. */
  ghost predicate SameDemand(k: Kernel, k1: Kernel, m: Loc) {
    && Sound(k) && Sound(k1) && m in k.attrs && m in k1.attrs
    && DemandOf(k1, m) == DemandOf(k, m)
    && (m in k1.entries <==> m in k.entries)
    && (m in k.entries ==> k1.entries[m].frame == k.entries[m].frame)
  }

  ghost predicate SameDemands(k: Kernel, k1: Kernel, s: nat, pages: seq<nat>) {
    forall i | 0 <= i < |pages| :: SameDemand(k, k1, PageLoc(s, pages[i]))
  }

  lemma {:induction false} SameSums(k: Kernel, k1: Kernel, s: nat, pages: seq<nat>, f: nat)
    requires Granted(k, s, pages) && Granted(k1, s, pages) && SameDemands(k, k1, s, pages)
    ensures Taken(k1, s, pages) == Taken(k, s, pages) && Gained(k1, s, pages, f) == Gained(k, s, pages, f)
    decreases |pages|
  {
    if pages != [] {
      assert SameDemand(k, k1, PageLoc(s, pages[0]));
      SameSums(k, k1, s, pages[1..], f);
    }
  }

  /** Blocking shifts by one page once the first has been copied. */
  lemma Shift(k: Kernel, k1: Kernel, s: nat, pages: seq<nat>, n: nat)
    requires Granted(k, s, pages) && pages != [] && Granted(k1, s, pages[1..]) && n < |pages| - 1
    requires SameDemands(k, k1, s, pages[1..])
    requires |k1.pool| == |k.pool| - Takes(DemandOf(k, PageLoc(s, pages[0])))
    requires forall i | 0 <= i < |pages| - 1 ::
               var m := PageLoc(s, pages[1..][i]);
               CountOf(k1, m) == CountOf(k, m) + (if m in k.entries then Delta(k, PageLoc(s, pages[0]), k.entries[m].frame) else 0)
    ensures FreeAt(k1, s, pages[1..], n) == FreeAt(k, s, pages, n + 1)
    ensures CountAt(k1, s, pages[1..], n) == CountAt(k, s, pages, n + 1)
    ensures Blocked(k1, s, pages[1..], n) <==> Blocked(k, s, pages, n + 1)
  {
    var rest := pages[1..];
    var m := PageLoc(s, rest[n]);
    assert rest[n] == pages[n + 1];
    assert SameDemand(k, k1, m);
    assert pages[..n + 1][1..] == rest[..n];
    assert Granted(k, s, rest[..n]) && Granted(k1, s, rest[..n]);
    assert SameDemands(k, k1, s, rest[..n]);
    SameSums(k, k1, s, rest[..n], if m in k.entries then k.entries[m].frame else 0);
    hide DemandOf, CountOf, Delta, Sound;
    assert pages[..n + 1] != [] && pages[..n + 1][0] == pages[0];
  }

  /** Stopping there also loses the reference that was added for the copy. */
  ghost predicate Loses(k: Kernel, s: nat, pages: seq<nat>, n: nat)
    requires Granted(k, s, pages) && n < |pages|
  {
    DemandOf(k, PageLoc(s, pages[n])).Away? && !Full(CountAt(k, s, pages, n))
  }

  /** The entries after the first `n` of `pages` have been copied: those of the pages that were
      present or shared, and possibly a lost reference. */
  ghost predicate Made(k: Kernel, k1: Kernel, s: nat, t: nat, pages: seq<nat>, n: nat, lost: bool)
    requires Granted(k, s, pages) && n <= |pages|
  {
    && (forall j | 0 <= j < |pages| ::
          PageLoc(t, pages[j]) in k1.entries <==> j < n && !DemandOf(k, PageLoc(s, pages[j])).Skip?)
    && (forall l :: l in k1.entries && l.PageLoc? && l.space == t && l.page !in pages ==> l in k.entries)
    && (forall l :: l in k.entries ==> l in k1.entries)
    && (forall l :: l in k1.entries && l !in k.entries ==>
          (l.PageLoc? && (l.space == s || l.space == t)) || (lost && l == LostLoc(k.nextLost)))
    && (lost ==> LostLoc(k.nextLost) in k1.entries)
    && k1.spaces == k.spaces
  }

  lemma PendingGranted(k: Kernel, s: nat, t: nat, pages: seq<nat>)
    requires Inv(k) && Pending(k, s, t, pages)
    ensures Granted(k, s, pages)
  {
    forall i | 0 <= i < |pages|
      ensures PageLoc(s, pages[i]) in k.attrs
    {
      assert pages[i] in pages;
    }
  }

  /** One page copied: what changes for the pages after it. */
  lemma CopiedShifts(k: Kernel, e: Eager, s: nat, t: nat, pages: seq<nat>)
    requires Inv(k) && Rel(k, e) && Plain(k) && Pending(k, s, t, pages) && pages != []
    requires Sound(k) && PageLoc(s, pages[0]) in k.attrs && CopyPage(k, PageLoc(s, pages[0]), PageLoc(t, pages[0])).Copied?
    ensures Granted(k, s, pages)
    ensures var k1 := CopyPage(k, PageLoc(s, pages[0]), PageLoc(t, pages[0])).k;
            && Inv(k1) && Plain(k1) && Pending(k1, s, t, pages[1..]) && Granted(k1, s, pages[1..]) && SameDemands(k, k1, s, pages[1..])
            && Paid(k, k1, PageLoc(s, pages[0]), PageLoc(t, pages[0])) && k1.spaces == k.spaces
            && (forall n | 0 <= n < |pages| - 1 ::
                  && FreeAt(k1, s, pages[1..], n) == FreeAt(k, s, pages, n + 1)
                  && CountAt(k1, s, pages[1..], n) == CountAt(k, s, pages, n + 1)
                  && (Blocked(k1, s, pages[1..], n) <==> Blocked(k, s, pages, n + 1)))
  {
    var src, dst := PageLoc(s, pages[0]), PageLoc(t, pages[0]);
    PendingGranted(k, s, t, pages);
    FirstPending(k, s, t, pages);
    InvIsReady(k, src);
    CopyPageKeeps(k, e, src, dst);
    CopyPageFrame(k, src, dst);
    CopyPagePlain(k, src, dst);
    CopyPageOutcome(k, src, dst);
    var k1 := CopyPage(k, src, dst).k;
    PendingRest(k, k1, s, t, pages);
    PendingGranted(k1, s, t, pages[1..]);
    RestDemands(k, k1, s, t, pages);
    hide Inv, Rel, Plain, Paid, CopyPage, Blocked, FreeAt, CountAt, DemandOf, Delta, CountOf, Pending;
    forall n | 0 <= n < |pages| - 1
      ensures FreeAt(k1, s, pages[1..], n) == FreeAt(k, s, pages, n + 1)
      ensures CountAt(k1, s, pages[1..], n) == CountAt(k, s, pages, n + 1)
      ensures Blocked(k1, s, pages[1..], n) <==> Blocked(k, s, pages, n + 1)
    {
      Shift(k, k1, s, pages, n);
    }
  }

  lemma RestDemands(k: Kernel, k1: Kernel, s: nat, t: nat, pages: seq<nat>)
    requires Inv(k) && Plain(k) && Pending(k, s, t, pages) && pages != [] && Granted(k, s, pages)
    requires Inv(k1) && Plain(k1) && CopyPage(k, PageLoc(s, pages[0]), PageLoc(t, pages[0])) == Copied(k1)
    requires Paid(k, k1, PageLoc(s, pages[0]), PageLoc(t, pages[0]))
    requires k1.attrs == k.attrs[PageLoc(t, pages[0]) := k.attrs[PageLoc(s, pages[0])]]
    requires Granted(k1, s, pages[1..])
    ensures |k1.pool| == |k.pool| - Takes(DemandOf(k, PageLoc(s, pages[0])))
    ensures SameDemands(k, k1, s, pages[1..])
    ensures forall i | 0 <= i < |pages| - 1 ::
              var m := PageLoc(s, pages[1..][i]);
              CountOf(k1, m) == CountOf(k, m) + (if m in k.entries then Delta(k, PageLoc(s, pages[0]), k.entries[m].frame) else 0)
  {
    var src, dst := PageLoc(s, pages[0]), PageLoc(t, pages[0]);
    FirstPending(k, s, t, pages);
    hide Inv, Plain, CopyPage;
    forall i | 0 <= i < |pages| - 1
      ensures var m := PageLoc(s, pages[1..][i]);
              && SameDemand(k, k1, m)
              && CountOf(k1, m) == CountOf(k, m) + (if m in k.entries then Delta(k, src, k.entries[m].frame) else 0)
    {
      var m := PageLoc(s, pages[1..][i]);
      assert pages[1..][i] == pages[i + 1];
      assert pages[i + 1] in pages;
      DemandStays(k, k1, src, dst, m);
    }
  }

  /** After `pages`, the pages of `rest` find what the state before all of them foretells. */
  ghost predicate Foretold(k: Kernel, k1: Kernel, s: nat, pages: seq<nat>, rest: seq<nat>)
    requires Granted(k, s, pages + rest) && Granted(k1, s, rest)
  {
    && SameDemands(k, k1, s, rest)
    && (forall m | 0 <= m < |rest| ::
          && FreeAt(k1, s, rest, m) == FreeAt(k, s, pages + rest, |pages| + m)
          && CountAt(k1, s, rest, m) == CountAt(k, s, pages + rest, |pages| + m))
  }

  lemma ForetoldBlocked(k: Kernel, k1: Kernel, s: nat, pages: seq<nat>, rest: seq<nat>, m: nat)
    requires Granted(k, s, pages + rest) && Granted(k1, s, rest) && Foretold(k, k1, s, pages, rest) && m < |rest|
    ensures Blocked(k1, s, rest, m) <==> Blocked(k, s, pages + rest, |pages| + m)
    ensures Loses(k1, s, rest, m) <==> Loses(k, s, pages + rest, |pages| + m)
    ensures DemandOf(k1, PageLoc(s, rest[m])) == DemandOf(k, PageLoc(s, (pages + rest)[|pages| + m]))
  {
    hide FreeAt, CountAt, DemandOf;
    assert (pages + rest)[|pages| + m] == rest[m];
    assert SameDemand(k, k1, PageLoc(s, rest[m]));
  }

  lemma ForetoldStep(k: Kernel, k1: Kernel, k2: Kernel, s: nat, pages: seq<nat>, rest: seq<nat>)
    requires pages != [] && Granted(k, s, pages + rest) && Granted(k1, s, (pages + rest)[1..]) && Granted(k2, s, rest)
    requires SameDemands(k, k1, s, (pages + rest)[1..])
    requires forall n | 0 <= n < |pages + rest| - 1 ::
               && FreeAt(k1, s, (pages + rest)[1..], n) == FreeAt(k, s, pages + rest, n + 1)
               && CountAt(k1, s, (pages + rest)[1..], n) == CountAt(k, s, pages + rest, n + 1)
    requires (pages + rest)[1..] == pages[1..] + rest && Foretold(k1, k2, s, pages[1..], rest)
    ensures Foretold(k, k2, s, pages, rest)
  {
    hide FreeAt, CountAt, DemandOf;
    forall i | 0 <= i < |rest|
      ensures SameDemand(k, k2, PageLoc(s, rest[i]))
    {
      assert SameDemand(k1, k2, PageLoc(s, rest[i]));
      assert (pages + rest)[1..][|pages| - 1 + i] == rest[i];
      assert SameDemand(k, k1, PageLoc(s, (pages + rest)[1..][|pages| - 1 + i]));
    }
  }

  lemma MadeNone(k: Kernel, k1: Kernel, s: nat, t: nat, pages: seq<nat>)
    requires Pending(k, s, t, pages) && Granted(k, s, pages) && pages != [] && Unpaid(k, k1, PageLoc(s, pages[0]))
    ensures Made(k, k1, s, t, pages, 0, DemandOf(k, PageLoc(s, pages[0])).Away? && !Full(CountOf(k, PageLoc(s, pages[0]))))
  {
    forall j | 0 <= j < |pages|
      ensures PageLoc(t, pages[j]) !in k.entries
    {
      assert pages[j] in pages;
    }
  }

  lemma MadeMore(k: Kernel, k1: Kernel, k2: Kernel, s: nat, t: nat, pages: seq<nat>, n: nat, lost: bool)
    requires Pending(k, s, t, pages) && Granted(k, s, pages) && pages != [] && n < |pages|
    requires Paid(k, k1, PageLoc(s, pages[0]), PageLoc(t, pages[0])) && k1.spaces == k.spaces
    requires Granted(k1, s, pages[1..]) && SameDemands(k, k1, s, pages[1..]) && Made(k1, k2, s, t, pages[1..], n, lost)
    ensures Made(k, k2, s, t, pages, n + 1, lost)
  {
    hide DemandOf;
    forall j | 0 <= j < |pages|
      ensures PageLoc(t, pages[j]) in k2.entries <==> j < n + 1 && !DemandOf(k, PageLoc(s, pages[j])).Skip?
    {
      assert pages[j] in pages;
      if j > 0 {
        assert pages[1..][j - 1] == pages[j];
        assert SameDemand(k, k1, PageLoc(s, pages[1..][j - 1]));
      } else {
        assert pages[0] !in pages[1..];
      }
    }
    assert forall p :: p in pages <==> p == pages[0] || p in pages[1..];
  }

  /** Copying `pages`, with `rest` to follow: it stops where the state before foretells, in the way
      the page there foretells, and otherwise leaves `rest` what was foretold. */
  lemma {:induction false} CopyPagesOutcome(k: Kernel, e: Eager, s: nat, t: nat, pages: seq<nat>, rest: seq<nat>) returns (n: nat)
    requires Inv(k) && Rel(k, e) && Plain(k) && Pending(k, s, t, pages + rest)
    ensures Granted(k, s, pages + rest) && Granted(k, s, pages) && n <= |pages|
    ensures forall j | 0 <= j < n :: !Blocked(k, s, pages + rest, j)
    ensures var r := CopyPages(k, s, t, pages);
            && (r.Copied? <==> n == |pages|)
            && (n < |pages| ==> Blocked(k, s, pages + rest, n) && (r.CopyPanic? <==> DemandOf(k, PageLoc(s, (pages + rest)[n])).Fresh?))
            && (!r.CopyPanic? ==> Made(k, r.k, s, t, pages, n, n < |pages| && Loses(k, s, pages + rest, n)))
            && (r.Copied? ==> Granted(r.k, s, rest) && Foretold(k, r.k, s, pages, rest))
    decreases |pages|
  {
    hide Inv, Rel, Plain, CopyPage, DemandOf, FreeAt, CountAt, Paid, Unpaid, Pending, Stuck, Made, Foretold, Blocked, Loses;
    var all := pages + rest;
    PendingGranted(k, s, t, all);
    GrantedPrefix(k, s, pages, rest);
    if pages == [] {
      n := 0;
      assert all == rest;
      NothingMade(k, s, t, rest);
    } else {
      var src, dst := PageLoc(s, pages[0]), PageLoc(t, pages[0]);
      assert all[0] == pages[0] && all[1..] == pages[1..] + rest;
      FirstPending(k, s, t, all);
      CopyPageOutcome(k, src, dst);
      AtFirst(k, s, all);
      var r := CopyPage(k, src, dst);
      PrefixPending(k, s, t, pages, rest);
      if r.Copied? {
        CopiedShifts(k, e, s, t, all);
        CopyPageKeeps(k, e, src, dst);
        SourceHasCell(k, e, src);
        var m := CopyPagesOutcome(r.k, CopyCell(e, src, dst), s, t, pages[1..], rest);
        n := m + 1;
        CopiedThen(k, r.k, s, t, pages, rest, m);
      } else {
        n := 0;
        if r.CopyNoMem? {
          MadeNone(k, r.k, s, t, pages);
        }
      }
    }
  }

  lemma GrantedPrefix(k: Kernel, s: nat, pages: seq<nat>, rest: seq<nat>)
    requires Granted(k, s, pages + rest)
    ensures Granted(k, s, pages)
  {
    forall i | 0 <= i < |pages|
      ensures PageLoc(s, pages[i]) in k.attrs
    {
      assert (pages + rest)[i] == pages[i];
    }
  }

  lemma PrefixPending(k: Kernel, s: nat, t: nat, pages: seq<nat>, rest: seq<nat>)
    requires Pending(k, s, t, pages + rest)
    ensures Pending(k, s, t, pages)
  {
    assert forall i | 0 <= i < |pages| :: (pages + rest)[i] == pages[i];
    assert forall p :: p in pages ==> p in pages + rest;
  }

  /** At the first page nothing has been taken yet. */
  lemma AtFirst(k: Kernel, s: nat, pages: seq<nat>)
    requires Granted(k, s, pages) && pages != []
    ensures var l := PageLoc(s, pages[0]);
            && (Blocked(k, s, pages, 0) <==> Stuck(DemandOf(k, l), |k.pool|, CountOf(k, l)))
            && (Loses(k, s, pages, 0) <==> DemandOf(k, l).Away? && !Full(CountOf(k, l)))
  {
    assert pages[..0] == [];
  }

  lemma NothingMade(k: Kernel, s: nat, t: nat, rest: seq<nat>)
    requires Granted(k, s, rest)
    ensures Granted(k, s, []) && Made(k, k, s, t, [], 0, false)
    ensures Granted(k, s, [] + rest) && Foretold(k, k, s, [], rest)
  {
    assert [] + rest == rest;
  }

  /** The first page copied, then the others. */
  lemma CopiedThen(k: Kernel, k1: Kernel, s: nat, t: nat, pages: seq<nat>, rest: seq<nat>, m: nat)
    requires pages != [] && Granted(k, s, pages + rest) && Granted(k, s, pages) && (pages + rest)[1..] == pages[1..] + rest
    requires Pending(k, s, t, pages) && Paid(k, k1, PageLoc(s, pages[0]), PageLoc(t, pages[0])) && k1.spaces == k.spaces
    requires Granted(k1, s, pages[1..] + rest) && Granted(k1, s, pages[1..]) && SameDemands(k, k1, s, pages[1..] + rest)
    requires forall n | 0 <= n < |pages + rest| - 1 ::
               && FreeAt(k1, s, pages[1..] + rest, n) == FreeAt(k, s, pages + rest, n + 1)
               && CountAt(k1, s, pages[1..] + rest, n) == CountAt(k, s, pages + rest, n + 1)
               && (Blocked(k1, s, pages[1..] + rest, n) <==> Blocked(k, s, pages + rest, n + 1))
    requires m <= |pages| - 1 && !Blocked(k, s, pages + rest, 0)
    requires forall j | 0 <= j < m :: !Blocked(k1, s, pages[1..] + rest, j)
    ensures forall j | 0 <= j < m + 1 :: !Blocked(k, s, pages + rest, j)
    ensures m < |pages| - 1 ==>
              && (Blocked(k1, s, pages[1..] + rest, m) <==> Blocked(k, s, pages + rest, m + 1))
              && (Loses(k1, s, pages[1..] + rest, m) <==> Loses(k, s, pages + rest, m + 1))
              && DemandOf(k1, PageLoc(s, (pages[1..] + rest)[m])) == DemandOf(k, PageLoc(s, (pages + rest)[m + 1]))
    ensures forall k2, lost :: Made(k1, k2, s, t, pages[1..], m, lost) ==> Made(k, k2, s, t, pages, m + 1, lost)
    ensures forall k2 :: Granted(k2, s, rest) && Foretold(k1, k2, s, pages[1..], rest) ==> Foretold(k, k2, s, pages, rest)
  {
    hide Pending, Paid, FreeAt, CountAt, Blocked, DemandOf, Made, Foretold;
    forall j | 0 <= j < m + 1
      ensures !Blocked(k, s, pages + rest, j)
    {
      if j > 0 {
        assert !Blocked(k1, s, pages[1..] + rest, j - 1);
      }
    }
    if m < |pages| - 1 {
      assert (pages[1..] + rest)[m] == (pages + rest)[m + 1];
      assert SameDemand(k, k1, PageLoc(s, (pages[1..] + rest)[m]));
    }
    forall i | 0 <= i < |pages[1..]|
      ensures SameDemand(k, k1, PageLoc(s, pages[1..][i]))
    {
      assert (pages[1..] + rest)[i] == pages[1..][i];
      assert SameDemand(k, k1, PageLoc(s, (pages[1..] + rest)[i]));
    }
    forall k2, lost | Made(k1, k2, s, t, pages[1..], m, lost)
      ensures Made(k, k2, s, t, pages, m + 1, lost)
    {
      MadeMore(k, k1, k2, s, t, pages, m, lost);
    }
    forall k2 | Granted(k2, s, rest) && Foretold(k1, k2, s, pages[1..], rest)
      ensures Foretold(k, k2, s, pages, rest)
    {
      ForetoldStep(k, k1, k2, s, pages, rest);
    }
  }
}
