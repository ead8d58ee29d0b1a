/**
 Taking a grant apart and putting its parts back (src/context/memory.rs).
 */
module GrantReinsert {
  import opened Common
  import opened GrantInfos
  import opened GrantMap
  import opened GrantUnmap

  /** A span none of whose pages is granted can be inserted. */
  lemma FreeCanInsert(m: Inner, g: Grant)
    requires GrantsOk(m) && 0 < g.info.count && g.Span().End() <= USER_PAGES
    requires forall p: nat :: g.Span().Has(p) ==> AttrOf(m, p).None?
    ensures CanInsert(m, g)
  {
    hide AttrOf;
    forall b | b in m
      ensures !Intersects(SpanOf(m, b), g.Span())
    {
      var i := Intersection(SpanOf(m, b), g.Span());
      if i.count != 0 {
        assert i.Has(i.base);
        AttrFrom(m, b, i.base);
        assert false;
      }
    }
  }

  function Reinserted(m: Inner, b: nat, span: PageSpan): Inner
    requires b in m && Inside(span, Grant(b, m[b])) && CanExtract(m[b], false)
  {
    var parts := Extract(Grant(b, m[b]), span);
    InsertOpt(InsertInner(InsertOpt(m - {b}, parts.before), parts.middle), parts.after)
  }

  lemma InsertOptAttrs(m: Inner, g: Option<Grant>)
    requires GrantsOk(m) && (g.Some? ==> CanInsert(m, g.value))
    ensures GrantsOk(InsertOpt(m, g))
    ensures forall p: nat :: AttrOf(InsertOpt(m, g), p) ==
                             if g.Some? && g.value.Span().Has(p) then Some(AttrAt(g.value, p)) else AttrOf(m, p)
  {
    hide *;
    forall p: nat
      ensures AttrOf(InsertOpt(m, g), p) == if g.Some? && g.value.Span().Has(p) then Some(AttrAt(g.value, p)) else AttrOf(m, p)
    {
      InsertOptAttr(m, g, p);
    }
    InsertOptAttr(m, g, 0);
  }

  /** Page by page, the parts put back are the parts taken out. */
  lemma ReinsertedAttr(m: Inner, b: nat, span: PageSpan)
    requires GrantsOk(m) && b in m && Inside(span, Grant(b, m[b])) && span.count > 0 && CanExtract(m[b], false)
    ensures GrantsOk(Reinserted(m, b, span))
    ensures forall p: nat :: AttrOf(Reinserted(m, b, span), p) ==
                             if SpanOf(m, b).Has(p) then Some(Attr(m[b].flags, m[b].mapped, CutBacking(Grant(b, m[b]), span, p)))
                             else AttrOf(m, p)
  {
    hide AttrOf, InsertOpt, CanInsert, Extract, CutBacking, CanExtract;
    var g := Grant(b, m[b]);
    var parts := Extract(g, span);
    ExtractSpans(g, span);
    RemoveKeeps(m, b);
    var m0 := m - {b};
    if parts.before.Some? {
      FreeCanInsert(m0, parts.before.value);
    }
    InsertOptAttrs(m0, parts.before);
    var m1 := InsertOpt(m0, parts.before);
    FreeCanInsert(m1, parts.middle);
    InsertOptAttrs(m1, Some(parts.middle));
    var m2 := InsertInner(m1, parts.middle);
    InsertOptIs(m1, parts.middle);
    if parts.after.Some? {
      FreeCanInsert(m2, parts.after.value);
    }
    InsertOptAttrs(m2, parts.after);
    forall p: nat
      ensures SpanOf(m, b).Has(p) ==>
                AttrOf(Reinserted(m, b, span), p) == Some(Attr(m[b].flags, m[b].mapped, CutBacking(g, span, p)))
    {
      if g.Span().Has(p) {
        ExtractAt(g, span, p);
      }
    }
  }

  lemma InsertOptIs(m: Inner, g: Grant)
    ensures InsertOpt(m, Some(g)) == InsertInner(m, g)
  {
  }

  /** Extracting and reinserting restores what is behind every page exactly when the cut is clean. */
  lemma ReinsertRestoresIff(m: Inner, b: nat, span: PageSpan)
    requires GrantsOk(m) && b in m && Inside(span, Grant(b, m[b])) && span.count > 0 && CanExtract(m[b], false)
    ensures (forall p: nat :: AttrOf(Reinserted(m, b, span), p) == AttrOf(m, p)) <==> CutsCleanly(Grant(b, m[b]), span)
  {
    hide AttrOf, Reinserted, CutBacking, CanExtract, Inside, GrantsOk, KeepsAttr;
    ReinsertedAttr(m, b, span);
    var g := Grant(b, m[b]);
    ExtractKeepsIff(g, span);
    forall p: nat | g.Span().Has(p)
      ensures AttrOf(Reinserted(m, b, span), p) == AttrOf(m, p) <==> KeepsAttr(g, span, p)
    {
      AttrFrom(m, b, p);
      KeepsIff(g, span, p);
    }
  }

  lemma KeepsIff(g: Grant, span: PageSpan, p: nat)
    requires Inside(span, g) && CanExtract(g.info, false) && g.Span().Has(p)
    ensures KeepsAttr(g, span, p) <==> AttrAt(g, p) == Attr(g.info.flags, g.info.mapped, CutBacking(g, span, p))
  {
    ExtractAt(g, span, p);
  }
}
