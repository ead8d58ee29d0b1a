/**
 `UserGrants` as an object: the grants and the index of holes that must stay its complement
 (src/context/memory.rs).
 */
module GrantSpace {
  import opened Common
  import opened GrantInfos
  import opened GrantMap
  import opened GrantHoles

  predicate Granted(m: Inner, x: nat) {
    AttrOf(m, x / PAGE_SIZE).Some?
  }

  /** Grants and holes partition [0, USER_END). */
  ghost predicate Agree(m: Inner, h: Holes) {
    forall x: nat :: x < USER_END ==> (InHole(h, x) <==> !Granted(m, x))
  }

  ghost predicate GrantsValid(m: Inner, h: Holes) {
    GrantsOk(m) && Merged(m) && HolesOk(h) && PageHoles(h) && Agree(m, h)
  }

  lemma SpanBytes(span: PageSpan, x: nat)
    ensures span.Has(x / PAGE_SIZE) <==> span.base * PAGE_SIZE <= x < span.End() * PAGE_SIZE
  {
  }

  lemma NewValid()
    ensures GrantsValid(map[], map[0 := USER_END])
  {
    var m: Inner, h: Holes := map[], map[0 := USER_END];
    forall x: nat | x < USER_END
      ensures InHole(h, x) && !Granted(m, x)
    {
      assert HoleAt(h, 0, x);
    }
  }

  /** Pages that conflict with no grant are free in the index, and the other way around. */
  lemma CanInsertIffUnused(m: Inner, h: Holes, g: Grant)
    requires GrantsValid(m, h) && 0 < g.info.count && g.Span().End() <= USER_PAGES
    ensures CanInsert(m, g) <==> Unused(h, g.base * PAGE_SIZE, g.Span().End() * PAGE_SIZE)
  {
    hide HolesOk, PageHoles, Merged, InHole, AttrOf;
    if CanInsert(m, g) {
      forall x: nat | g.base * PAGE_SIZE <= x < g.Span().End() * PAGE_SIZE
        ensures InHole(h, x)
      {
        SpanBytes(g.Span(), x);
        OutsideGrants(m, g, x / PAGE_SIZE);
      }
    }
    if Unused(h, g.base * PAGE_SIZE, g.Span().End() * PAGE_SIZE) {
      forall b | b in m
        ensures !Intersects(SpanOf(m, b), g.Span())
      {
        NoSharedPage(m, h, g, b);
      }
    }
  }

  lemma OutsideGrants(m: Inner, g: Grant, p: nat)
    requires GrantsOk(m) && CanInsert(m, g) && g.Span().Has(p)
    ensures AttrOf(m, p).None?
  {
    forall b: nat
      ensures !Holds(m, b, p)
    {
      if b in m {
        Apart(m, g, b);
      }
    }
    NoAttr(m, p);
  }

  lemma PageStart(m: Inner, p: nat)
    ensures Granted(m, p * PAGE_SIZE) <==> AttrOf(m, p).Some?
  {
  }

  lemma NoSharedPage(m: Inner, h: Holes, g: Grant, b: nat)
    requires GrantsOk(m) && Agree(m, h) && g.Span().End() <= USER_PAGES && b in m
    requires Unused(h, g.base * PAGE_SIZE, g.Span().End() * PAGE_SIZE)
    ensures !Intersects(SpanOf(m, b), g.Span())
  {
    hide InHole, AttrOf;
    var i := Intersection(SpanOf(m, b), g.Span());
    if i.count != 0 {
      var p := i.base;
      assert i.Has(p);
      AttrFrom(m, b, p);
      PageStart(m, p);
      assert false;
    }
  }

  lemma InsertValid(m: Inner, h: Holes, g: Grant)
    requires GrantsValid(m, h) && CanInsert(m, g)
    ensures g.base * PAGE_SIZE in h ==> h[g.base * PAGE_SIZE] >= g.info.count * PAGE_SIZE
    ensures GrantsValid(InsertInner(m, g), Reserve(h, g.base * PAGE_SIZE, g.Span().End() * PAGE_SIZE))
  {
    hide HolesOk, PageHoles, Merged, InHole, AttrOf, Reserve, GrantsOk, CanInsert, InsertInner;
    var start, end := g.base * PAGE_SIZE, g.Span().End() * PAGE_SIZE;
    InsertRange(m, g);
    CanInsertIffUnused(m, h, g);
    ReserveExact(h, start, end);
    InsertGrantsOk(m, g);
    InsertMerged(m, g);
    forall x: nat | x < USER_END
      ensures InHole(Reserve(h, start, end), x) <==> !Granted(InsertInner(m, g), x)
    {
      InsertAttr(m, g, x / PAGE_SIZE);
      SpanBytes(g.Span(), x);
    }
  }

  lemma InsertRange(m: Inner, g: Grant)
    requires CanInsert(m, g)
    ensures 0 < g.info.count && g.Span().End() <= USER_PAGES
  {
  }

  lemma RemoveValid(m: Inner, h: Holes, b: nat)
    requires GrantsValid(m, h) && b in m
    ensures GrantsValid(m - {b}, Unreserve(h, b * PAGE_SIZE, (b + m[b].count) * PAGE_SIZE))
  {
    hide HolesOk, PageHoles, Merged, InHole, AttrOf, Unreserve;
    var start, end := b * PAGE_SIZE, (b + m[b].count) * PAGE_SIZE;
    forall x | start <= x < end
      ensures !InHole(h, x)
    {
      SpanBytes(SpanOf(m, b), x);
      AttrFrom(m, b, x / PAGE_SIZE);
    }
    UnreserveExact(h, start, end);
    RemoveKeeps(m, b);
    forall x: nat | x < USER_END
      ensures InHole(Unreserve(h, start, end), x) <==> !Granted(m - {b}, x)
    {
      SpanBytes(SpanOf(m, b), x);
    }
  }

  /** Whatever `find_free` returns can be inserted. */
  lemma FindFreeCanInsert(m: Inner, h: Holes, min: nat, info: GrantInfo)
    requires GrantsValid(m, h) && OnPage(min) && info.count > 0
    ensures var r := FindFree(h, min, info.count); r.Some? ==> CanInsert(m, Grant(r.value.base, info))
  {
    hide HolesOk, PageHoles, Merged, Agree, GrantsOk, FindFree;
    FindFreeExact(h, min, info.count);
    var r := FindFree(h, min, info.count);
    if r.Some? {
      var g := Grant(r.value.base, info);
      UnusedInRange(h, g.base * PAGE_SIZE, g.Span().End() * PAGE_SIZE);
      CanInsertIffUnused(m, h, g);
    }
  }

  lemma UnusedInRange(h: Holes, start: nat, end: nat)
    requires HolesOk(h) && start < end && Unused(h, start, end)
    ensures end <= USER_END
  {
    var a := InOneHole(h, start, end);
  }

  lemma ValidTogether(m: Inner, h: Holes)
    requires GrantsValid(m, h)
    ensures Together(m)
  {
    hide HolesOk, PageHoles, Merged, Together;
    MergedIffTogether(m);
  }

  class UserGrants {
    var inner: Inner
    var holes: Holes

    ghost predicate Valid()
      reads this
    {
      GrantsValid(inner, holes)
    }

    constructor ()
      ensures Valid() && inner == map[]
      ensures forall p :: AttrOf(inner, p).None?
    {
      inner := map[];
      holes := map[0 := USER_END];
      NewValid();
    }

    method ReserveRange(base: nat, count: nat)
      requires count > 0 && (base * PAGE_SIZE in holes ==> holes[base * PAGE_SIZE] >= count * PAGE_SIZE)
      modifies this`holes
      ensures holes == Reserve(old(holes), base * PAGE_SIZE, (base + count) * PAGE_SIZE)
    {
      var start, size := base * PAGE_SIZE, count * PAGE_SIZE;
      var end := start + size;
      var previous := Below(holes, start);
      if previous.Some? {
        var offset := previous.value;
        var prevEnd := offset + holes[offset];
        if prevEnd > start {
          holes := holes[offset := start - offset];
        }
        if prevEnd > end {
          holes := holes[end := prevEnd - end];
        }
      }
      if start in holes {
        var remainder := holes[start] - size;
        holes := holes - {start};
        if remainder > 0 {
          holes := holes[end := remainder];
        }
      }
    }

    method UnreserveRange(base: nat, count: nat)
      modifies this`holes
      ensures holes == Unreserve(old(holes), base * PAGE_SIZE, (base + count) * PAGE_SIZE)
    {
      var start, size := base * PAGE_SIZE, count * PAGE_SIZE;
      var end := start + size;
      var exactlyAfter := if end in holes then holes[end] else 0;
      holes := holes - {end};
      var previous := Below(holes, start);
      if previous.Some? && previous.value + holes[previous.value] == start {
        holes := holes[previous.value := end - previous.value + exactlyAfter];
      } else {
        holes := holes[start := size + exactlyAfter];
      }
    }

    /** `insert`: the assertion at its head is the precondition. */
    method Insert(g: Grant)
      requires Valid() && CanInsert(inner, g)
      modifies this
      ensures Valid() && inner == InsertInner(old(inner), g)
      ensures forall p :: AttrOf(inner, p) == if g.Span().Has(p) then Some(AttrAt(g, p)) else AttrOf(old(inner), p)
      ensures Together(inner)
    {
      hide GrantsValid, CanInsert, AttrOf, Reserve, Together;
      InsertValid(inner, holes, g);
      InsertRange(inner, g);
      ghost var inner0 := inner;
      assert (g.base + g.info.count) * PAGE_SIZE == g.Span().End() * PAGE_SIZE;
      ReserveRange(g.base, g.info.count);
      var before, after := MergeBefore(inner, g), MergeAfter(inner, g);
      var merged := g;
      if before.Some? {
        merged := Grant(before.value, merged.info.(count := merged.info.count + inner[before.value].count));
      }
      if after.Some? {
        merged := merged.(info := merged.info.(count := merged.info.count + inner[after.value].count));
      }
      if before.Some? {
        inner := inner - {before.value};
      }
      if after.Some? {
        inner := inner - {after.value};
      }
      inner := inner[merged.base := merged.info];
      assert inner == InsertInner(inner0, g);
      ValidGrants(inner0, old(holes));
      forall p: nat
        ensures AttrOf(inner, p) == if g.Span().Has(p) then Some(AttrAt(g, p)) else AttrOf(inner0, p)
      {
        InsertAttr(inner0, g, p);
      }
      ValidTogether(inner, holes);
    }

    method Remove(base: nat) returns (r: Option<Grant>)
      requires Valid()
      modifies this
      ensures Valid() && (r.Some? <==> base in old(inner))
      ensures r.None? ==> inner == old(inner) && holes == old(holes)
      ensures r.Some? ==> r.value == Grant(base, old(inner)[base]) && inner == old(inner) - {base}
      ensures r.Some? ==> forall p :: AttrOf(inner, p) == if r.value.Span().Has(p) then None else AttrOf(old(inner), p)
    {
      hide GrantsValid, AttrOf, Unreserve;
      if base !in inner {
        return None;
      }
      RemoveValid(inner, holes, base);
      ValidGrants(inner, holes);
      RemoveKeeps(inner, base);
      var info := inner[base];
      inner := inner - {base};
      UnreserveRange(base, info.count);
      r := Some(Grant(base, info));
    }

    /** `find_free` */
    method FindSpan(min: nat, count: nat) returns (r: Option<PageSpan>)
      requires Valid() && OnPage(min) && count > 0
      ensures r.None? ==> forall start: nat :: !Fits(holes, start, min, count * PAGE_SIZE)
      ensures r.Some? ==>
                && r.value.count == count && min <= r.value.base * PAGE_SIZE && r.value.End() <= USER_PAGES
                && (forall p :: r.value.Has(p) ==> AttrOf(inner, p).None?)
                && (forall start: nat :: Fits(holes, start, min, count * PAGE_SIZE) ==> r.value.base * PAGE_SIZE <= start)
    {
      hide AttrOf, FindFree, GrantsOk, CanInsert;
      r := FindFree(holes, min, count);
      FindFreeExact(holes, min, count);
      if r.Some? {
        ghost var g := Grant(r.value.base, GrantInfo(count, 0, true, AllocatedShared(false)));
        FindFreeCanInsert(inner, holes, min, g.info);
        InsertRange(inner, g);
        forall p | r.value.Has(p)
          ensures AttrOf(inner, p).None?
        {
          OutsideGrants(inner, g, p);
        }
      }
    }
  }

  lemma ValidGrants(m: Inner, h: Holes)
    requires GrantsValid(m, h)
    ensures GrantsOk(m)
  {
  }
}
