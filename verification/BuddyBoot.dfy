/**
 Building the first free lists (`init_sections`, src/memory/mod.rs): each section is cut into
 naturally aligned blocks from both ends, one order at a time, and the blocks whose head the bump
 allocator has not used are appended to the list of their order.
 */
module BuddyBoot {
  import opened Common
  import opened BuddyMath
  import opened BuddyTiling
  import opened BuddyOps
  import opened BuddyLists
  import opened BuddyAllocator

  datatype Section = Section(base: nat, len: nat)

  /** Head to order. */
  type Cut = map<nat, nat>

  // ----- cutting one section -----

  /** The blocks cut so far from the section [start, end): those below `lo` and from `hi` on. */
  ghost predicate CutOk(cut: Cut, start: nat, lo: nat, hi: nat, end: nat)
    requires start <= lo <= hi <= end
  {
    && (forall f :: f in cut ==> Canonical(Range(start, end - start), f, cut[f]) && (f + Pow2(cut[f]) <= lo || hi <= f))
    && (forall f, g :: f in cut && g in cut && f < g ==> f + Pow2(cut[f]) <= g)
    && (forall p :: start <= p < lo || hi <= p < end ==> IsCut(cut, p))
  }

  ghost predicate CutHead(cut: Cut, f: nat, p: nat) {
    f in cut && InRun(p, f, cut[f])
  }

  ghost predicate IsCut(cut: Cut, p: nat) {
    exists f :: CutHead(cut, f, p)
  }

  /** What the order loop knows before order `k`: what is left is aligned, and each end has lost less
      than one block of this order. */
  ghost predicate Ends(k: nat, start: nat, lo: nat, hi: nat, end: nat) {
    && start <= lo <= hi <= end
    && Aligned(lo, k) && Aligned(hi, k)
    && lo - start < Pow2(k) && end - hi < Pow2(k)
  }

  /** Aligned ends leave room for a whole block. */
  lemma {:induction false} RoomForBlock(lo: nat, hi: nat, k: nat)
    requires Aligned(lo, k) && Aligned(hi, k) && lo < hi
    ensures lo + Pow2(k) <= hi
    decreases k
  {
    if k > 0 {
      RoomForBlock(lo / 2, hi / 2, k - 1);
    }
  }

  lemma {:induction false} AlignedSum(f: nat, k: nat)
    requires Aligned(f, k)
    ensures Aligned(f + Pow2(k), k)
    ensures f >= Pow2(k) ==> Aligned(f - Pow2(k), k)
    decreases k
  {
    if k > 0 {
      AlignedSum(f / 2, k - 1);
    }
  }

  /** Odd multiples of a block size are the upper halves. */
  lemma OddMultiple(f: nat, k: nat)
    requires Aligned(f, k) && !Aligned(f, k + 1)
    ensures f >= Pow2(k) && ClearBit(f, k) == f - Pow2(k)
    ensures Aligned(f - Pow2(k), k + 1) && Aligned(f + Pow2(k), k + 1)
    ensures ClearBit(f - Pow2(k), k) == f - Pow2(k)
  {
    hide Pow2, Aligned, ClearBit, FlipBit;
    Halves(f, k);
    Pow2Double(k);
    AlignedSum(f - Pow2(k), k + 1);
    SplitHalves(f - Pow2(k), k);
  }

  /** Cutting a block off the low end, where the next order does not fit. */
  lemma CutLow(cut: Cut, k: nat, start: nat, lo: nat, hi: nat, end: nat)
    requires Ends(k, start, lo, hi, end) && lo < hi && k < MAX_ORDER && !Aligned(lo, k + 1)
    requires CutOk(cut, start, lo, hi, end)
    ensures lo + Pow2(k) <= hi && lo !in cut && CutOk(cut[lo := k], start, lo + Pow2(k), hi, end)
    ensures Aligned(lo + Pow2(k), k + 1) && lo + Pow2(k) - start < Pow2(k + 1)
  {
    hide Pow2, Aligned, ClearBit, Range;
    RoomForBlock(lo, hi, k);
    OddMultiple(lo, k);
    Pow2Double(k);
    var section := Range(start, end - start);
    assert Canonical(section, lo, k) by {
      assert lo - Pow2(k) in Run(ClearBit(lo, k), k + 1);
      assert lo - Pow2(k) !in section;
    }
    CutAdd(cut, start, lo, hi, end, lo, k);
  }

  /** Cutting a block off the high end. */
  lemma CutHigh(cut: Cut, k: nat, start: nat, lo: nat, hi: nat, end: nat)
    requires start <= lo < hi <= end && Aligned(lo, k) && Aligned(hi, k) && end - hi < Pow2(k)
    requires k < MAX_ORDER && !Aligned(hi, k + 1)
    requires CutOk(cut, start, lo, hi, end)
    ensures lo + Pow2(k) <= hi && hi - Pow2(k) !in cut && CutOk(cut[hi - Pow2(k) := k], start, lo, hi - Pow2(k), end)
    ensures Aligned(hi - Pow2(k), k + 1) && end - (hi - Pow2(k)) < Pow2(k + 1)
  {
    hide Pow2, Aligned, ClearBit, Range;
    RoomForBlock(lo, hi, k);
    OddMultiple(hi, k);
    Pow2Double(k);
    var f := hi - Pow2(k);
    AlignedSum(hi, k);
    var section := Range(start, end - start);
    assert Canonical(section, f, k) by {
      assert end in Run(ClearBit(f, k), k + 1);
      assert end !in section;
    }
    CutAdd(cut, start, lo, hi, end, f, k);
  }

  lemma CutAdd(cut: Cut, start: nat, lo: nat, hi: nat, end: nat, f: nat, k: nat)
    requires start <= lo && lo + Pow2(k) <= hi <= end && (f == lo || f == hi - Pow2(k))
    requires CutOk(cut, start, lo, hi, end) && Canonical(Range(start, end - start), f, k)
    ensures f !in cut
    ensures f == lo ==> CutOk(cut[f := k], start, lo + Pow2(k), hi, end)
    ensures f == hi - Pow2(k) ==> CutOk(cut[f := k], start, lo, hi - Pow2(k), end)
  {
    hide Pow2, Canonical, Range;
    Pow2Positive(k);
    forall g | g in cut
      ensures Pow2(cut[g]) > 0
    {
      Pow2Positive(cut[g]);
    }
    var cut1 := cut[f := k];
    forall p | start <= p < lo || hi <= p < end || f <= p < f + Pow2(k)
      ensures IsCut(cut1, p)
    {
      if f <= p < f + Pow2(k) {
        assert CutHead(cut1, f, p);
      } else {
        assert IsCut(cut, p);
        var g :| CutHead(cut, g, p);
        assert CutHead(cut1, g, p);
      }
    }
  }

  /** A block of the largest order off the low end. */
  lemma CutLargest(cut: Cut, start: nat, lo: nat, hi: nat, end: nat)
    requires start <= lo < hi <= end && Aligned(lo, MAX_ORDER) && Aligned(hi, MAX_ORDER)
    requires CutOk(cut, start, lo, hi, end)
    ensures lo + Pow2(MAX_ORDER) <= hi && lo !in cut
    ensures CutOk(cut[lo := MAX_ORDER], start, lo + Pow2(MAX_ORDER), hi, end) && Aligned(lo + Pow2(MAX_ORDER), MAX_ORDER)
  {
    hide Pow2, Aligned, ClearBit, Range;
    RoomForBlock(lo, hi, MAX_ORDER);
    AlignedSum(lo, MAX_ORDER);
    assert Canonical(Range(start, end - start), lo, MAX_ORDER);
    CutAdd(cut, start, lo, hi, end, lo, MAX_ORDER);
  }

  // ----- the tiling of all sections -----

  function StatusAt(f: nat, absOff: nat): Status {
    if f < absOff then Reserved else Free
  }

  function Extend(t: Tiling, cut: Cut, absOff: nat): Tiling {
    t + map f | f in cut :: Block(cut[f], StatusAt(f, absOff))
  }

  /** Sections in order, touching only where blocks of the largest order begin. */
  ghost predicate Sections(ss: seq<Section>) {
    && (forall i | 0 <= i < |ss| :: 0 < ss[i].base)
    && (forall i, j | 0 <= i < j < |ss| :: ss[i].base + ss[i].len <= ss[j].base)
    && (forall i, j | 0 <= i < j < |ss| :: ss[i].base + ss[i].len == ss[j].base ==> Aligned(ss[j].base, MAX_ORDER))
  }

  ghost predicate InSection(ss: seq<Section>, p: nat) {
    exists i | 0 <= i < |ss| :: ss[i].base <= p < ss[i].base + ss[i].len
  }

  function Pages(ss: seq<Section>): (r: set<nat>)
    ensures forall p :: p in r <==> InSection(ss, p)
  {
    if ss == [] then {}
    else
      var last := ss[|ss| - 1];
      var r := Pages(ss[..|ss| - 1]) + Range(last.base, last.len);
      assert forall i | 0 <= i < |ss| - 1 :: ss[..|ss| - 1][i] == ss[i];
      assert forall p :: p in r <==> InSection(ss, p);
      r
  }

  lemma PagesNext(ss: seq<Section>, n: nat)
    requires n < |ss|
    ensures Pages(ss[..n + 1]) == Pages(ss[..n]) + Range(ss[n].base, ss[n].len)
  {
    assert ss[..n + 1][..n] == ss[..n];
  }

  /** Every block of a tiling with nothing live is of the status its head gives it. */
  ghost predicate Fresh(t: Tiling, absOff: nat) {
    forall f :: f in t ==> t[f].status == StatusAt(f, absOff)
  }

  lemma SectionTiled(t: Tiling, owned: set<nat>, cut: Cut, s: Section, absOff: nat)
    requires Tiled(t, owned) && CutOk(cut, s.base, s.base + s.len, s.base + s.len, s.base + s.len)
    requires forall p :: p in owned ==> p < s.base
    ensures Tiled(Extend(t, cut, absOff), owned + Range(s.base, s.len))
    ensures forall f :: f in cut ==> f !in t
  {
    hide Pow2, Aligned, Range, ClearBit;
    var t1 := Extend(t, cut, absOff);
    var owned1 := owned + Range(s.base, s.len);
    forall f | f in t
      ensures f + Pow2(t[f].order) <= s.base
    {
      Pow2Positive(t[f].order);
      assert f + Pow2(t[f].order) - 1 in Run(f, t[f].order);
    }
    forall f | f in cut
      ensures s.base <= f && f !in t
    {
      Pow2Positive(cut[f]);
      assert f in Run(f, cut[f]);
      if f in t {
        Pow2Positive(t[f].order);
      }
    }
    forall p | p in owned1
      ensures exists f :: HeadOf(t1, f, p)
    {
      if p in owned {
        var f :| HeadOf(t, f, p);
        assert HeadOf(t1, f, p);
      } else {
        assert IsCut(cut, p);
        var f :| CutHead(cut, f, p);
        assert HeadOf(t1, f, p);
      }
    }
  }

  lemma SectionMaximal(t: Tiling, owned: set<nat>, cut: Cut, s: Section, absOff: nat)
    requires Good(t, owned) && CutOk(cut, s.base, s.base + s.len, s.base + s.len, s.base + s.len)
    requires forall p :: p in owned ==> p < s.base
    requires 0 < s.base && (s.base - 1 in owned ==> Aligned(s.base, MAX_ORDER))
    ensures Maximal(Extend(t, cut, absOff))
  {
    hide Pow2, Aligned, Range, ClearBit, FlipBit;
    SectionTiled(t, owned, cut, s, absOff);
    var t1 := Extend(t, cut, absOff);
    forall f | f in t1 && t1[f].status.Free? && t1[f].order < MAX_ORDER
      ensures !FreeAt(t1, FlipBit(f, t1[f].order), t1[f].order)
    {
      var k := t1[f].order;
      var g := FlipBit(f, k);
      BlockAligned(t1, owned + Range(s.base, s.len), f);
      Halves(f, k);
      if FreeAt(t1, g, k) {
        if f in cut && g in cut {
          BothInCut(cut, s, f, k);
        } else if f in cut {
          AcrossSections(t, owned, cut, s, g, k);
        } else if g in cut {
          AcrossSections(t, owned, cut, s, f, k);
        }
      }
    }
  }

  lemma BothInCut(cut: Cut, s: Section, f: nat, k: nat)
    requires CutOk(cut, s.base, s.base + s.len, s.base + s.len, s.base + s.len)
    requires f in cut && cut[f] == k < MAX_ORDER
    ensures !(FlipBit(f, k) in cut && cut[FlipBit(f, k)] == k)
  {
    hide Pow2, Aligned, Range, ClearBit, FlipBit;
    var section := Range(s.base, s.base + s.len - s.base);
    assert Canonical(section, f, k);
    Halves(f, k);
    Pow2Double(k);
    assert Run(ClearBit(f, k), k + 1) <= Run(f, k) + Run(FlipBit(f, k), k);
    assert FlipBit(f, k) in cut ==> Canonical(section, FlipBit(f, k), cut[FlipBit(f, k)]);
  }

  /** A block of an earlier section and its buddy in a later one would meet off a section boundary. */
  lemma AcrossSections(t: Tiling, owned: set<nat>, cut: Cut, s: Section, g: nat, k: nat)
    requires Tiled(t, owned) && CutOk(cut, s.base, s.base + s.len, s.base + s.len, s.base + s.len)
    requires forall p :: p in owned ==> p < s.base
    requires 0 < s.base && (s.base - 1 in owned ==> Aligned(s.base, MAX_ORDER))
    requires g in t && t[g].order == k < MAX_ORDER
    ensures !(FlipBit(g, k) in cut && cut[FlipBit(g, k)] == k)
  {
    hide Pow2, Aligned, Range, ClearBit, FlipBit, Maximal, Disjoint, Covers;
    var f := FlipBit(g, k);
    BlockAligned(t, owned, g);
    Halves(g, k);
    Pow2Double(k);
    assert g + Pow2(k) - 1 in Run(g, k);
    assert f in Run(f, k);
    if f in cut && cut[f] == k {
      assert Run(f, k) <= Range(s.base, s.base + s.len - s.base);
      NotBothAligned(g, k);
      if f == s.base {
        AlignedLower(f, k + 1, MAX_ORDER);
      }
      assert false;
    }
  }

  lemma NotBothAligned(g: nat, k: nat)
    requires Aligned(g, k) && FlipBit(g, k) == g + Pow2(k)
    ensures !Aligned(g + Pow2(k), k + 1)
  {
    hide Pow2, Aligned, ClearBit, FlipBit;
    Halves(g, k);
    Pow2Double(k);
    if Aligned(g + Pow2(k), k + 1) {
      SplitHalves(g + Pow2(k), k);
    }
  }

  // ----- appending to the lists -----

  function Last(l: seq<nat>): Option<nat> {
    if l == [] then None else Some(l[|l| - 1])
  }

  /** The appended node and its predecessor change; no other does. */
  function Append(infos: Infos, c: nat, last: Option<nat>, o: nat): Infos {
    SetNext(infos[c := Unused(P2Frame(last, o), P2Frame(None, o))], last, P2Frame(Some(c), o))
  }

  lemma AppendKeeps(infos: Infos, l: seq<nat>, c: nat, o: nat)
    requires Linked(infos, l, o) && c !in l
    ensures Linked(Append(infos, c, Last(l), o), l + [c], o)
    ensures forall f :: f in infos && f !in l && f != c ==>
              f in Append(infos, c, Last(l), o) && Append(infos, c, Last(l), o)[f] == infos[f]
    ensures Append(infos, c, Last(l), o).Keys == infos.Keys + {c}
    ensures forall f :: f in infos && f != c ==> (infos[f].Used? <==> Append(infos, c, Last(l), o)[f].Used?)
  {
    var infos1 := Append(infos, c, Last(l), o);
    var l1 := l + [c];
    forall j | 0 <= j < |l1|
      ensures l1[j] in infos1 && infos1[l1[j]] == Node(l1, j, o)
    {
      if j < |l| {
        assert infos[l[j]] == Node(l, j, o);
      }
    }
  }

  /** The page infos while the lists are built. */
  ghost predicate Building(infos: Infos, first: seq<Option<nat>>, last: seq<Option<nat>>, lists: seq<seq<nat>>,
                           t: Tiling, absOff: nat) {
    && AllLinked(infos, first, lists) && Indexed(lists, t)
    && |last| == ORDER_COUNT && (forall o | 0 <= o < ORDER_COUNT :: last[o] == Last(lists[o]))
    && (forall p :: p in infos ==> (infos[p].Used? <==> p < absOff))
    && Fresh(t, absOff)
  }

  lemma AppendLists(infos: Infos, first: seq<Option<nat>>, last: seq<Option<nat>>, lists: seq<seq<nat>>, t: Tiling,
                    absOff: nat, c: nat, o: nat)
    requires Building(infos, first, last, lists, t, absOff) && c in infos && c !in t && absOff <= c && o < ORDER_COUNT
    ensures Building(Append(infos, c, last[o], o), if last[o].None? then first[o := Some(c)] else first,
                     last[o := Some(c)], lists[o := lists[o] + [c]], t[c := Block(o, Free)], absOff)
    ensures Append(infos, c, last[o], o).Keys == infos.Keys
  {
    hide Append, AllLinked, Indexed, Linked, FreeAt;
    var infos1 := Append(infos, c, last[o], o);
    AppendLinked(infos, first, lists, t, c, o);
    IndexedLength(lists, t);
    IndexAppend(lists, t, o, c);
  }

  lemma AppendLinked(infos: Infos, first: seq<Option<nat>>, lists: seq<seq<nat>>, t: Tiling, c: nat, o: nat)
    requires AllLinked(infos, first, lists) && Indexed(lists, t) && c in infos && c !in t && o < ORDER_COUNT
    ensures var infos1 := Append(infos, c, Last(lists[o]), o);
            && AllLinked(infos1, if Last(lists[o]).None? then first[o := Some(c)] else first, lists[o := lists[o] + [c]])
            && infos1.Keys == infos.Keys
            && (forall f :: f in infos && f != c ==> (infos[f].Used? <==> infos1[f].Used?))
            && infos1[c].Unused?
  {
    hide Append;
    IndexedIsSeparate(lists, t);
    var infos1 := Append(infos, c, Last(lists[o]), o);
    assert !FreeAt(t, c, o);
    AppendKeeps(infos, lists[o], c, o);
    forall q, f | 0 <= q < ORDER_COUNT && q != o && f in lists[q]
      ensures f in infos1 && infos1[f] == infos[f]
    {
      assert Linked(infos, lists[q], q);
      assert f in infos;
      assert FreeAt(t, f, q);
    }
    var l := lists[o] + [c];
    ReplaceList(infos, infos1, first, lists, o, l);
    assert first[o := First(l)] == if Last(lists[o]).None? then first[o := Some(c)] else first;
    assert infos1[l[|l| - 1]] == Node(l, |l| - 1, o);
  }

  lemma IndexAppend(lists: seq<seq<nat>>, t: Tiling, o: nat, c: nat)
    requires Indexed(lists, t) && o < ORDER_COUNT && c !in t
    ensures Indexed(lists[o := lists[o] + [c]], t[c := Block(o, Free)])
  {
    var lists1 := lists[o := lists[o] + [c]];
    var t1 := t[c := Block(o, Free)];
    forall q, f | 0 <= q < ORDER_COUNT
      ensures f in lists1[q] <==> FreeAt(t1, f, q)
    {
      assert f in lists[q] <==> FreeAt(t, f, q);
    }
  }

  // ----- the loops -----

  lemma ExtendAdd(t: Tiling, cut: Cut, absOff: nat, f: nat, k: nat)
    ensures Extend(t, cut[f := k], absOff) == Extend(t, cut, absOff)[f := Block(k, StatusAt(f, absOff))]
  {
  }

  lemma NewHead(t: Tiling, owned: set<nat>, s: Section, cut: Cut, absOff: nat, f: nat)
    requires Tiled(t, owned) && (forall p :: p in owned ==> p < s.base) && s.base <= f && f !in cut
    ensures f !in Extend(t, cut, absOff)
  {
    hide Tiled;
    BlockPages(t, owned, f);
  }

  lemma ReserveHead(infos: Infos, first: seq<Option<nat>>, last: seq<Option<nat>>, lists: seq<seq<nat>>, t: Tiling,
                    absOff: nat, c: nat, o: nat)
    requires Building(infos, first, last, lists, t, absOff) && c !in t && c < absOff
    ensures Building(infos, first, last, lists, t[c := Block(o, Reserved)], absOff)
  {
    var t1 := t[c := Block(o, Reserved)];
    assert forall f, q :: FreeAt(t1, f, q) <==> FreeAt(t, f, q);
    forall q, f | 0 <= q < ORDER_COUNT
      ensures f in lists[q] <==> FreeAt(t1, f, q)
    {
    }
  }

  /** The last page of a list is another page of it, and is not used. */
  lemma LastNode(infos: Infos, first: seq<Option<nat>>, last: seq<Option<nat>>, lists: seq<seq<nat>>, t: Tiling,
                 absOff: nat, c: nat, o: nat)
    requires Building(infos, first, last, lists, t, absOff) && c in infos && c !in t && absOff <= c && o < ORDER_COUNT
    ensures |first| == |last| == |lists| == ORDER_COUNT && infos[c].Unused?
    ensures last[o].Some? ==>
              last[o].value != c && last[o].value in infos && infos[last[o].value].Unused?
  {
    if last[o].Some? {
      var l := lists[o];
      assert Linked(infos, l, o);
      assert infos[l[|l| - 1]] == Node(l, |l| - 1, o);
      assert l[|l| - 1] in l;
      assert FreeAt(t, l[|l| - 1], o);
    }
  }

  /** Once every section is cut, the allocator can start. */
  lemma BuiltIsConsistent(infos: Infos, first: seq<Option<nat>>, last: seq<Option<nat>>, lists: seq<seq<nat>>, t: Tiling, absOff: nat)
    requires Building(infos, first, last, lists, t, absOff) && Good(t, infos.Keys) && 0 !in infos
    ensures Consistent(infos, first, lists, t, None)
    ensures PagesOf(t, Live) == {}
  {
    hide Maximal, AllLinked, Indexed, Tiled;
    forall f | f in t && !t[f].status.Free?
      ensures f in infos && infos[f].Used?
    {
      BlockPages(t, infos.Keys, f);
    }
  }

  lemma EmptyIsGood()
    ensures Good(map[], {})
  {
  }

  /** The bump allocator's own pages that are never handed out: at most one block reaches past the offset. */
  lemma OneBlockStraddles(t: Tiling, owned: set<nat>, absOff: nat, p: nat, q: nat) returns (f: nat)
    requires Tiled(t, owned) && Fresh(t, absOff)
    requires p in PagesOf(t, Reserved) && q in PagesOf(t, Reserved) && absOff <= p && absOff <= q
    ensures HeadOf(t, f, p) && HeadOf(t, f, q) && f < absOff
  {
    hide Pow2, Range, Tiled, PagesOf, Disjoint;
    InPages(t, Reserved, p);
    InPages(t, Reserved, q);
    f :| HeadOf(t, f, p) && t[f].status.Reserved?;
    var g: nat :| HeadOf(t, g, q) && t[g].status.Reserved?;
    TiledIsDisjoint(t, owned);
    if f < g {
      InOrder(t, f, g);
    } else if g < f {
      InOrder(t, g, f);
    }
  }

  lemma InOrder(t: Tiling, f: nat, g: nat)
    requires Disjoint(t) && f in t && g in t && f < g
    ensures f + Pow2(t[f].order) <= g
  {
  }

  lemma IndexedLength(lists: seq<seq<nat>>, t: Tiling)
    requires Indexed(lists, t)
    ensures |lists| == ORDER_COUNT
  {
  }

  lemma BuildingFresh(infos: Infos, first: seq<Option<nat>>, last: seq<Option<nat>>, lists: seq<seq<nat>>, t: Tiling, absOff: nat)
    requires Building(infos, first, last, lists, t, absOff)
    ensures Fresh(t, absOff)
  {
  }

  lemma AppendIs(infos: Infos, c: nat, last: Option<nat>, o: nat)
    ensures Append(infos, c, last, o) == SetNext(infos[c := Unused(P2Frame(last, o), P2Frame(None, o))], last, P2Frame(Some(c), o))
  {
  }

  lemma NoPages()
    ensures Pages([]) == {}
  {
  }

  lemma NoFrameZero(ss: seq<Section>)
    requires Sections(ss)
    ensures 0 !in Pages(ss)
  {
  }

  lemma RestIsAbove(ss: seq<Section>, i: nat, frame: nat)
    requires Sections(ss) && i < |ss| && ss[i].base <= frame < ss[i].base + ss[i].len
    ensures forall p :: p in Pages(ss) && p < frame ==> p in Pages(ss[..i]) || ss[i].base <= p < frame
  {
    forall p | p in Pages(ss) && p < frame
      ensures p in Pages(ss[..i]) || ss[i].base <= p < frame
    {
      var j :| 0 <= j < |ss| && ss[j].base <= p < ss[j].base + ss[j].len;
      if j < i {
        assert ss[..i][j] == ss[j];
      }
    }
  }

  lemma PagesBelow(ss: seq<Section>, i: nat)
    requires Sections(ss) && i < |ss|
    ensures forall p :: p in Pages(ss[..i]) ==> p < ss[i].base
    ensures Range(ss[i].base, ss[i].len) <= Pages(ss)
    ensures 0 < ss[i].base && (ss[i].base - 1 in Pages(ss[..i]) ==> Aligned(ss[i].base, MAX_ORDER))
  {
    hide Aligned;
    if ss[i].base - 1 in Pages(ss[..i]) {
      var j :| 0 <= j < |ss[..i]| && ss[..i][j].base <= ss[i].base - 1 < ss[..i][j].base + ss[..i][j].len;
      assert ss[j].base + ss[j].len == ss[i].base;
    }
  }

  lemma StartCut(t: Tiling, start: nat, end: nat, absOff: nat)
    requires start <= end
    ensures CutOk(map[], start, start, end, end) && Extend(t, map[], absOff) == t
    ensures Ends(0, start, start, end, end)
  {
  }

  lemma CutDone(cut: Cut, start: nat, lo: nat, end: nat)
    requires start <= lo <= end && CutOk(cut, start, lo, lo, end)
    ensures CutOk(cut, start, end, end, end)
  {
    hide Pow2, Canonical, Range;
    forall f | f in cut
      ensures f + Pow2(cut[f]) <= end
    {
      CanonicalEnds(start, end, f, cut[f]);
    }
  }

  lemma CanonicalEnds(start: nat, end: nat, f: nat, k: nat)
    requires start <= end && Canonical(Range(start, end - start), f, k)
    ensures f + Pow2(k) <= end
  {
    Pow2Positive(k);
    assert f + Pow2(k) - 1 in Run(f, k);
  }

  class FreeListBuilder {
    const absOff: nat
    var infos: Infos
    var first: seq<Option<nat>>
    var last: seq<Option<nat>>
    ghost var lists: seq<seq<nat>>
    ghost var tiling: Tiling

    ghost predicate Valid()
      reads this
    {
      Building(infos, first, last, lists, tiling, absOff)
    }

    /** Page infos start as zero words; the pages the bump allocator used are then marked. */
    constructor (ss: seq<Section>, absOff: nat)
      requires Sections(ss)
      ensures Valid() && this.absOff == absOff && tiling == map[] && infos.Keys == Pages(ss)
    {
      this.absOff := absOff;
      var zero := map p | p in Pages(ss) :: Unused(P2Frame(None, 0), P2Frame(None, 0));
      this.first := seq(ORDER_COUNT, _ => None);
      this.last := seq(ORDER_COUNT, _ => None);
      this.lists := seq(ORDER_COUNT, _ => []);
      this.tiling := map[];
      var marked := MarkBumpPages(ss, absOff, zero);
      this.infos := marked;
    }

    static method MarkBumpPages(ss: seq<Section>, absOff: nat, zero: Infos) returns (infos: Infos)
      requires Sections(ss) && zero.Keys == Pages(ss) && forall p :: p in zero ==> zero[p].Unused?
      ensures infos.Keys == zero.Keys
      ensures forall p :: p in infos ==> (infos[p].Used? <==> p < absOff)
    {
      hide Pages, InSection, Sections;
      infos := zero;
      var i := 0;
      NoPages();
      label sections: while i < |ss|
        invariant 0 <= i <= |ss| && infos.Keys == zero.Keys
        invariant forall p :: p in infos ==> (infos[p].Used? <==> p in Pages(ss[..i]))
        invariant forall p :: p in Pages(ss[..i]) ==> p < absOff
      {
        PagesNext(ss, i);
        PagesBelow(ss, i);
        var off := 0;
        while off < ss[i].len
          invariant 0 <= off <= ss[i].len && infos.Keys == zero.Keys
          invariant forall p :: p in infos ==> (infos[p].Used? <==> p in Pages(ss[..i]) || ss[i].base <= p < ss[i].base + off)
          invariant off > 0 ==> ss[i].base + off <= absOff
        {
          var frame := ss[i].base + off;
          if frame >= absOff {
            RestIsAbove(ss, i, frame);
            return;
          }
          infos := infos[frame := Used];
          off := off + 1;
        }
        i := i + 1;
      }
      assert ss[..i] == ss;
    }

    /** `append_page`, with the order word that is stored before each call. */
    method AppendPage(page: nat, order: nat)
      requires Valid() && page in infos && page !in tiling && order < ORDER_COUNT
      modifies this
      ensures Valid() && infos.Keys == old(infos.Keys)
      ensures tiling == old(tiling)[page := Block(order, StatusAt(page, absOff))]
      // appended to the list of its order, unless the bump allocator used its head
      ensures |old(lists)| == ORDER_COUNT && lists == if page < absOff then old(lists) else old(lists)[order := old(lists)[order] + [page]]
    {
      hide Append, AllLinked, Indexed, Fresh;
      if page < absOff {
        ReserveHead(infos, first, last, lists, tiling, absOff, page, order);
        tiling := tiling[page := Block(order, Reserved)];
        IndexedLength(lists, tiling);
        return;
      }
      LastNode(infos, first, last, lists, tiling, absOff, page, order);
      AppendLists(infos, first, last, lists, tiling, absOff, page, order);
      ghost var infos0, first0 := infos, first;
      infos := infos[page := infos[page].(next := P2Frame(None, order))];
      var lastPage := last[order];
      last := last[order := Some(page)];
      if lastPage.Some? {
        infos := SetNext(infos, lastPage, P2Frame(Some(page), order));
        infos := SetPrev(infos, Some(page), P2Frame(lastPage, order));
      } else {
        first := first[order := Some(page)];
        infos := infos[page := Unused(P2Frame(None, order), P2Frame(None, order))];
      }
      assert infos == Append(infos0, page, lastPage, order) by { AppendIs(infos0, page, lastPage, order); }
      lists := lists[order := lists[order] + [page]];
      tiling := tiling[page := Block(order, Free)];
    }

    /** The order loop over one section. */
    method CutSection(s: Section, ghost owned: set<nat>) returns (ghost cut: Cut)
      requires Valid() && Range(s.base, s.len) <= infos.Keys
      requires Tiled(tiling, owned) && forall p :: p in owned ==> p < s.base
      modifies this
      ensures Valid() && infos.Keys == old(infos.Keys)
      ensures CutOk(cut, s.base, s.base + s.len, s.base + s.len, s.base + s.len)
      ensures tiling == Extend(old(tiling), cut, absOff)
    {
      hide Building, Pow2, Aligned, Range, Extend, CutOk, Tiled;
      ghost var t0 := tiling;
      ghost var start, end := s.base, s.base + s.len;
      var base, len := s.base, s.len;
      cut := map[];
      StartCut(t0, start, end, absOff);
      var order := 0;
      while order < MAX_ORDER && len > 0
        invariant order <= MAX_ORDER
        invariant Valid() && infos.Keys == old(infos.Keys)
        invariant start <= base <= base + len <= end
        invariant len > 0 ==> Ends(order, start, base, base + len, end)
        invariant CutOk(cut, start, base, base + len, end)
        invariant tiling == Extend(t0, cut, absOff)
      {
        var pages := Pow2(order);
        if !Aligned(base, order + 1) {
          CutLow(cut, order, start, base, base + len, end);
          NewHead(t0, owned, s, cut, absOff, base);
          ExtendAdd(t0, cut, absOff, base, order);
          AppendPage(base, order);
          cut := cut[base := order];
          base, len := base + pages, len - pages;
        }
        Pow2Double(order);
        if len > 0 && !Aligned(base + len, order + 1) {
          AlignedLower(base, order, order + 1);
          CutHigh(cut, order, start, base, base + len, end);
          var off := len - pages;
          NewHead(t0, owned, s, cut, absOff, base + off);
          ExtendAdd(t0, cut, absOff, base + off, order);
          AppendPage(base + off, order);
          cut := cut[base + off := order];
          len := off;
        }
        order := order + 1;
      }
      while len > 0
        invariant start <= base <= base + len <= end
        invariant len > 0 ==> Aligned(base, MAX_ORDER) && Aligned(base + len, MAX_ORDER)
        invariant Valid() && infos.Keys == old(infos.Keys)
        invariant CutOk(cut, start, base, base + len, end)
        invariant tiling == Extend(t0, cut, absOff)
      {
        CutLargest(cut, start, base, base + len, end);
        NewHead(t0, owned, s, cut, absOff, base);
        ExtendAdd(t0, cut, absOff, base, MAX_ORDER);
        AppendPage(base, MAX_ORDER);
        cut := cut[base := MAX_ORDER];
        Pow2Positive(MAX_ORDER);
        base, len := base + Pow2(MAX_ORDER), len - Pow2(MAX_ORDER);
      }
      CutDone(cut, start, base, end);
    }

    /** All sections: the result is a consistent allocator with nothing handed out. */
    method CutSections(ss: seq<Section>)
      requires Valid() && tiling == map[] && Sections(ss) && infos.Keys == Pages(ss)
      modifies this
      ensures infos.Keys == old(infos.Keys) && Fresh(tiling, absOff)
      ensures Consistent(infos, first, lists, tiling, None) && PagesOf(tiling, Live) == {}
    {
      hide Building, Pow2, Aligned, Range, Extend, CutOk, Tiled, Maximal, Pages, Fresh, InSection;
      var i := 0;
      EmptyIsGood();
      NoPages();
      assert ss[..0] == [];
      while i < |ss|
        invariant 0 <= i <= |ss| && Valid() && infos.Keys == old(infos.Keys)
        invariant Good(tiling, Pages(ss[..i]))
      {
        ghost var t, owned := tiling, Pages(ss[..i]);
        PagesNext(ss, i);
        PagesBelow(ss, i);
        ghost var cut := CutSection(ss[i], owned);
        SectionTiled(t, owned, cut, ss[i], absOff);
        SectionMaximal(t, owned, cut, ss[i], absOff);
        i := i + 1;
      }
      assert ss[..i] == ss;
      NoFrameZero(ss);
      BuiltIsConsistent(infos, first, last, lists, tiling, absOff);
      BuildingFresh(infos, first, last, lists, tiling, absOff);
    }
  }

  method InitSections(ss: seq<Section>, absOff: nat) returns (a: FrameAllocator)
    requires Sections(ss)
    ensures fresh(a) && a.Valid() && a.infos.Keys == Pages(ss) && a.usedFrames == 0
    ensures Fresh(a.tiling, absOff)
  {
    var b := new FreeListBuilder(ss, absOff);
    b.CutSections(ss);
    a := new FrameAllocator(b.infos, b.first, b.lists, b.tiling);
  }
}
