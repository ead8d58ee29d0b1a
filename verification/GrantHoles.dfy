/**
 The index of free address ranges in `UserGrants` (src/context/memory.rs), in bytes: start to size.
 */
module GrantHoles {
  import opened Common
  import opened GrantInfos
  import opened GrantMap

  const USER_END: nat := USER_PAGES * PAGE_SIZE

  type Holes = map<nat, nat>

  ghost predicate HolesOk(h: Holes) {
    && (forall a :: a in h ==> 0 < h[a] && a + h[a] <= USER_END)
    // never adjacent
    && (forall a, b :: a in h && b in h && a < b ==> a + h[a] < b)
  }

  ghost predicate PageHoles(h: Holes) {
    forall a :: a in h ==> OnPage(a) && OnPage(h[a])
  }

  lemma PageArithmetic(x: nat, y: nat)
    requires OnPage(x) && OnPage(y)
    ensures OnPage(x + y) && (x <= y ==> OnPage(y - x))
  {
  }

  predicate HoleAt(h: Holes, a: nat, x: nat) {
    a in h && a <= x < a + h[a]
  }

  ghost predicate InHole(h: Holes, x: nat) {
    exists a :: HoleAt(h, a, x)
  }

  ghost predicate Unused(h: Holes, start: nat, end: nat) {
    forall x :: start <= x < end ==> InHole(h, x)
  }

  /** A free range lies in one hole, because holes are never adjacent. */
  lemma InOneHole(h: Holes, start: nat, end: nat) returns (a: nat)
    requires HolesOk(h) && start < end && Unused(h, start, end)
    ensures a in h && a <= start && end <= a + h[a]
    ensures forall b :: b in h && b != a ==> b + h[b] < start || end < b
  {
    assert InHole(h, start);
    a :| HoleAt(h, a, start);
    var e := a + h[a];
    assert e < end ==> InHole(h, e);
  }

  // ----- reserve -----

  /** Shrinks or splits the hole that begins before `start`. */
  function ShrinkPrevious(h: Holes, start: nat, end: nat): Holes {
    var prev := Below(h, start);
    if prev.None? then h
    else
      var o := prev.value;
      var prevEnd := o + h[o];
      var h1 := if prevEnd > start then h[o := start - o] else h;
      if prevEnd > end then h1[end := prevEnd - end] else h1
  }

  function Reserve(h: Holes, start: nat, end: nat): Holes
    requires start <= end && (start in h ==> h[start] >= end - start)
  {
    var h1 := ShrinkPrevious(h, start, end);
    if start !in h then h1
    else
      var remainder := h[start] - (end - start);
      if remainder > 0 then (h1 - {start})[end := remainder] else h1 - {start}
  }

  /** What is left of the one hole that the range lies in. */
  function Cut(h: Holes, a: nat, start: nat, end: nat): Holes
    requires a in h && a <= start <= end <= a + h[a]
  {
    var left := if a < start then h[a := start - a] else h - {a};
    if end < a + h[a] then left[end := a + h[a] - end] else left
  }

  lemma ReserveIsCut(h: Holes, a: nat, start: nat, end: nat)
    requires HolesOk(h) && start < end && a in h && a <= start && end <= a + h[a]
    ensures start in h ==> h[start] >= end - start
    ensures Reserve(h, start, end) == Cut(h, a, start, end)
  {
    if start in h {
      assert a == start;
      var prev := Below(h, start);
      assert prev.Some? ==> prev.value + h[prev.value] < start;
    } else {
      var prev := Below(h, start);
      assert prev.Some? && a <= prev.value < start;
      assert prev.value == a;
    }
  }

  lemma CutOk(h: Holes, a: nat, start: nat, end: nat)
    requires HolesOk(h) && start < end && a in h && a <= start && end <= a + h[a]
    ensures HolesOk(Cut(h, a, start, end))
    ensures forall x: nat :: InHole(Cut(h, a, start, end), x) <==> InHole(h, x) && !(start <= x < end)
  {
    var h1 := Cut(h, a, start, end);
    forall x: nat
      ensures InHole(h1, x) <==> InHole(h, x) && !(start <= x < end)
    {
      CutAt(h, a, start, end, x);
    }
  }

  lemma CutAt(h: Holes, a: nat, start: nat, end: nat, x: nat)
    requires HolesOk(h) && start < end && a in h && a <= start && end <= a + h[a]
    ensures InHole(Cut(h, a, start, end), x) <==> InHole(h, x) && !(start <= x < end)
  {
    var h1 := Cut(h, a, start, end);
    if InHole(h1, x) {
      var b: nat :| HoleAt(h1, b, x);
      assert HoleAt(h, if b == end then a else b, x);
    }
    if InHole(h, x) && !(start <= x < end) {
      var b: nat :| HoleAt(h, b, x);
      assert HoleAt(h1, if b == a && x >= end then end else b, x);
    }
  }

  /** Reserving a free range takes exactly it out of the holes. */
  lemma ReserveExact(h: Holes, start: nat, end: nat)
    requires HolesOk(h) && start < end && Unused(h, start, end)
    ensures start in h ==> h[start] >= end - start
    ensures HolesOk(Reserve(h, start, end))
    ensures forall x: nat :: InHole(Reserve(h, start, end), x) <==> InHole(h, x) && !(start <= x < end)
    ensures PageHoles(h) && OnPage(start) && OnPage(end) ==> PageHoles(Reserve(h, start, end))
  {
    hide Cut, Reserve, HolesOk, InHole, Unused;
    var a := InOneHole(h, start, end);
    ReserveIsCut(h, a, start, end);
    CutOk(h, a, start, end);
    CutPages(h, a, start, end);
  }

  lemma CutPages(h: Holes, a: nat, start: nat, end: nat)
    requires a in h && a <= start && start < end <= a + h[a]
    ensures PageHoles(h) && OnPage(start) && OnPage(end) ==> PageHoles(Cut(h, a, start, end))
  {
    hide OnPage;
    if PageHoles(h) && OnPage(start) && OnPage(end) {
      PageArithmetic(a, start);
      PageArithmetic(a, h[a]);
      PageArithmetic(end, a + h[a]);
    }
  }

  // ----- unreserve -----

  function Unreserve(h: Holes, start: nat, end: nat): Holes
    requires start <= end
  {
    var after := if end in h then h[end] else 0;
    var h1 := h - {end};
    var prev := Below(h1, start);
    if prev.Some? && prev.value + h1[prev.value] == start
    then h1[prev.value := end - prev.value + after]
    else h1[start := end - start + after]
  }

  ghost predicate NoneFree(h: Holes, start: nat, end: nat) {
    forall x :: start <= x < end ==> !InHole(h, x)
  }

  /** Every hole is before the range or after it. */
  lemma HolesApart(h: Holes, start: nat, end: nat, a: nat)
    requires HolesOk(h) && start < end && NoneFree(h, start, end) && a in h
    ensures a + h[a] <= start || end <= a
  {
    if a < end && start < a + h[a] {
      var x := if a < start then start else a;
      assert HoleAt(h, a, x);
      assert InHole(h, x);
    }
  }

  lemma UnreserveHoles(h: Holes, start: nat, end: nat)
    requires HolesOk(h) && start < end <= USER_END
    requires forall a :: a in h ==> a + h[a] <= start || end <= a
    ensures HolesOk(Unreserve(h, start, end))
  {
  }

  /** The hole that ends up holding the range: what it takes in, and that the others stay. */
  lemma GrownHole(h: Holes, start: nat, end: nat) returns (g: nat)
    requires HolesOk(h) && start < end
    ensures g <= start && (g == start || (g in h && g != end && g + h[g] == start))
    ensures var h1 := Unreserve(h, start, end);
            && g in h1 && h1[g] == end - g + (if end in h then h[end] else 0)
            && (forall b :: b != g ==> (b in h1 <==> b in h && b != end))
            && (forall b :: b in h1 && b != g ==> h1[b] == h[b])
  {
    var prev := Below(h - {end}, start);
    g := if prev.Some? && prev.value + h[prev.value] == start then prev.value else start;
  }

  lemma UnreserveAt(h: Holes, start: nat, end: nat, x: nat)
    requires HolesOk(h) && start < end <= USER_END
    requires forall a :: a in h ==> a + h[a] <= start || end <= a
    ensures InHole(Unreserve(h, start, end), x) <==> InHole(h, x) || start <= x < end
  {
    hide Unreserve, HolesOk;
    var h1 := Unreserve(h, start, end);
    var grown := GrownHole(h, start, end);
    if InHole(h1, x) && !(start <= x < end) {
      var b: nat :| HoleAt(h1, b, x);
      assert HoleAt(h, if b == grown && end <= x then end else b, x);
    }
    if InHole(h, x) {
      var b: nat :| HoleAt(h, b, x);
      assert HoleAt(h1, if b == end then grown else b, x);
    }
    if start <= x < end {
      assert HoleAt(h1, grown, x);
    }
  }

  /** Giving a range back adds exactly it to the holes. */
  lemma UnreserveExact(h: Holes, start: nat, end: nat)
    requires HolesOk(h) && start < end <= USER_END && NoneFree(h, start, end)
    ensures HolesOk(Unreserve(h, start, end))
    ensures forall x: nat :: InHole(Unreserve(h, start, end), x) <==> InHole(h, x) || start <= x < end
    ensures PageHoles(h) && OnPage(start) && OnPage(end) ==> PageHoles(Unreserve(h, start, end))
  {
    forall a | a in h
      ensures a + h[a] <= start || end <= a
    {
      HolesApart(h, start, end, a);
    }
    hide Unreserve, InHole, NoneFree;
    UnreserveHoles(h, start, end);
    forall x: nat
      ensures InHole(Unreserve(h, start, end), x) <==> InHole(h, x) || start <= x < end
    {
      UnreserveAt(h, start, end, x);
    }
    UnreservePages(h, start, end);
  }

  lemma UnreservePages(h: Holes, start: nat, end: nat)
    requires start <= end
    ensures PageHoles(h) && OnPage(start) && OnPage(end) ==> PageHoles(Unreserve(h, start, end))
  {
    hide OnPage;
    if PageHoles(h) && OnPage(start) && OnPage(end) {
      var after := if end in h then h[end] else 0;
      assert OnPage(after) by { ZeroOnPage(); }
      PageArithmetic(start, end);
      PageArithmetic(end - start, after);
      var prev := Below(h - {end}, start);
      if prev.Some? {
        PageArithmetic(prev.value, end);
        PageArithmetic(end - prev.value, after);
      }
    }
  }

  lemma ZeroOnPage()
    ensures OnPage(0)
  {
  }

  /** Holes are determined by the free bytes alone. */
  lemma HolesCanonical(h: Holes, h1: Holes)
    requires HolesOk(h) && HolesOk(h1) && forall x :: InHole(h, x) <==> InHole(h1, x)
    ensures h == h1
  {
    hide HolesOk, InHole;
    forall a | a in h || a in h1
      ensures a in h && a in h1 && h[a] == h1[a]
    {
      if a in h {
        SameHole(h, h1, a);
      } else {
        SameHole(h1, h, a);
      }
    }
    assert h.Keys == h1.Keys;
  }

  lemma SameHole(h: Holes, h1: Holes, a: nat)
    requires HolesOk(h) && HolesOk(h1) && (forall x :: InHole(h, x) <==> InHole(h1, x)) && a in h
    ensures a in h1 && h1[a] == h[a]
  {
    forall x | a <= x < a + h[a]
      ensures InHole(h1, x)
    {
      assert HoleAt(h, a, x);
      assert InHole(h, x);
    }
    var b := InOneHole(h1, a, a + h[a]);
    forall x | b <= x < b + h1[b]
      ensures InHole(h, x)
    {
      assert HoleAt(h1, b, x);
      assert InHole(h1, x);
    }
    var c := InOneHole(h, b, b + h1[b]);
    assert c == a;
  }

  // ----- find_free -----

  /** `skip_while`: the first hole that ends above `min`. */
  function SkipTo(h: Holes, from: nat, min: nat): Option<nat>
    decreases USER_END - from
  {
    var r := Ceil(h, from, USER_END);
    if r.None? then None
    else if r.value + h[r.value] <= min then SkipTo(h, r.value + 1, min)
    else r
  }

  function Available(h: Holes, a: nat, min: nat): int
    requires a in h
  {
    if a <= min <= a + h[a] then h[a] - (min - a) else h[a]
  }

  /** `find`: from there on, the first that has room. */
  function FindFit(h: Holes, from: nat, min: nat, size: nat): Option<nat>
    decreases USER_END - from
  {
    var r := Ceil(h, from, USER_END);
    if r.None? then None
    else if size <= Available(h, r.value, min) then r
    else FindFit(h, r.value + 1, min, size)
  }

  function FindFree(h: Holes, min: nat, count: nat): Option<PageSpan> {
    var first := SkipTo(h, 0, min);
    var r := if first.None? then None else FindFit(h, first.value, min, count * PAGE_SIZE);
    if r.None? then None else Some(PageSpan(Max(r.value, min) / PAGE_SIZE, count))
  }

  lemma {:induction false} SkipToFirst(h: Holes, from: nat, min: nat)
    requires HolesOk(h)
    ensures var r := SkipTo(h, from, min);
            && (r.None? ==> forall a :: a in h && from <= a ==> a + h[a] <= min)
            && (r.Some? ==> r.value in h && from <= r.value && min < r.value + h[r.value]
                            && forall a :: a in h && from <= a < r.value ==> a + h[a] <= min)
    decreases USER_END - from
  {
    var r := Ceil(h, from, USER_END);
    if r.Some? && r.value + h[r.value] <= min {
      SkipToFirst(h, r.value + 1, min);
    }
  }

  lemma {:induction false} FindFitFirst(h: Holes, from: nat, min: nat, size: nat)
    requires HolesOk(h)
    ensures var r := FindFit(h, from, min, size);
            && (r.None? ==> forall a :: a in h && from <= a ==> Available(h, a, min) < size)
            && (r.Some? ==> r.value in h && from <= r.value && size <= Available(h, r.value, min)
                            && forall a :: a in h && from <= a < r.value ==> Available(h, a, min) < size)
    decreases USER_END - from
  {
    hide Available;
    var r := Ceil(h, from, USER_END);
    if r.Some? && size > Available(h, r.value, min) {
      FindFitFirst(h, r.value + 1, min, size);
    }
  }

  /** A run of `size` free bytes at or above `min`. */
  ghost predicate Fits(h: Holes, start: nat, min: nat, size: nat) {
    min <= start && Unused(h, start, start + size)
  }

  lemma FitsInHole(h: Holes, a: nat, min: nat, size: nat)
    requires HolesOk(h) && a in h && min < a + h[a] && size <= Available(h, a, min)
    ensures Fits(h, Max(a, min), min, size)
  {
    var start := Max(a, min);
    forall x | start <= x < start + size
      ensures InHole(h, x)
    {
      assert HoleAt(h, a, x);
    }
  }

  /** The search is complete and takes the lowest place. */
  lemma FindFitExact(h: Holes, min: nat, size: nat)
    requires HolesOk(h) && size > 0
    ensures var first := SkipTo(h, 0, min);
            var r := if first.None? then None else FindFit(h, first.value, min, size);
            && (r.None? ==> forall start: nat :: !Fits(h, start, min, size))
            && (r.Some? ==> Fits(h, Max(r.value, min), min, size)
                            && forall start: nat :: Fits(h, start, min, size) ==> Max(r.value, min) <= start)
  {
    hide HolesOk, Fits, SkipTo, FindFit;
    var first := SkipTo(h, 0, min);
    SkipToFirst(h, 0, min);
    var r := if first.None? then None else FindFit(h, first.value, min, size);
    if first.Some? {
      FindFitFirst(h, first.value, min, size);
    }
    if r.Some? {
      EndsAbove(h, first.value, r.value, min);
      FitsInHole(h, r.value, min, size);
    }
    forall start: nat | Fits(h, start, min, size)
      ensures r.Some? && Max(r.value, min) <= start
    {
      var a := FitHole(h, start, min, size);
    }
  }

  lemma EndsAbove(h: Holes, a: nat, b: nat, min: nat)
    requires HolesOk(h) && a in h && b in h && a <= b && min < a + h[a]
    ensures min < b + h[b]
  {
  }

  /** The hole that a fitting run is in has room for it. */
  lemma FitHole(h: Holes, start: nat, min: nat, size: nat) returns (a: nat)
    requires HolesOk(h) && size > 0 && Fits(h, start, min, size)
    ensures a in h && a <= start && min < a + h[a] && size <= Available(h, a, min) && min <= start
  {
    a := InOneHole(h, start, start + size);
  }

  /** With a page-aligned lower bound the returned pages are free, at or above the bound, and the
      lowest that fit; none is returned only when nothing fits. */
  lemma FindFreeExact(h: Holes, min: nat, count: nat)
    requires HolesOk(h) && PageHoles(h) && OnPage(min) && count > 0
    ensures var r := FindFree(h, min, count);
            && (r.None? ==> forall start: nat :: !Fits(h, start, min, count * PAGE_SIZE))
            && (r.Some? ==> r.value.count == count
                            && Fits(h, r.value.base * PAGE_SIZE, min, count * PAGE_SIZE)
                            && forall start: nat :: Fits(h, start, min, count * PAGE_SIZE) ==> r.value.base * PAGE_SIZE <= start)
  {
    hide HolesOk, Fits, SkipTo, FindFit;
    FindFitExact(h, min, count * PAGE_SIZE);
    var first := SkipTo(h, 0, min);
    var r := if first.None? then None else FindFit(h, first.value, min, count * PAGE_SIZE);
    if r.Some? {
      SkipToFirst(h, 0, min);
      FindFitFirst(h, first.value, min, count * PAGE_SIZE);
      assert Max(r.value, min) % PAGE_SIZE == 0;
      assert Max(r.value, min) / PAGE_SIZE * PAGE_SIZE == Max(r.value, min);
    }
  }

  /** The hole that the search settles on. */
  function ChosenHole(h: Holes, min: nat, count: nat): Option<nat> {
    var first := SkipTo(h, 0, min);
    if first.None? then None else FindFit(h, first.value, min, count * PAGE_SIZE)
  }

  lemma HoleRoundsDown(h: Holes, a: nat, min: nat, size: nat)
    requires HolesOk(h) && PageHoles(h) && a in h && min < a + h[a] && size <= Available(h, a, min)
    ensures var start := Max(a, min) / PAGE_SIZE * PAGE_SIZE;
            && Unused(h, start, start + size)
            && (min <= start <==> OnPage(min) || min <= a)
  {
    var start := Max(a, min) / PAGE_SIZE * PAGE_SIZE;
    assert OnPage(a);
    assert a <= start <= Max(a, min);
    forall x | start <= x < start + size
      ensures InHole(h, x)
    {
      assert HoleAt(h, a, x);
    }
  }

  /** With any bound the returned span is free, because the address is rounded down inside the hole.
      It lies at or above the bound exactly when the bound is on a page or not inside the chosen
      hole. */
  lemma FindFreeAnyBound(h: Holes, min: nat, count: nat)
    requires HolesOk(h) && PageHoles(h) && count > 0
    ensures var r := FindFree(h, min, count);
            && (r.None? <==> forall start: nat :: !Fits(h, start, min, count * PAGE_SIZE))
            && (r.Some? ==>
                  && ChosenHole(h, min, count).Some?
                  && Unused(h, r.value.base * PAGE_SIZE, r.value.End() * PAGE_SIZE)
                  && (min <= r.value.base * PAGE_SIZE <==> OnPage(min) || min <= ChosenHole(h, min, count).value))
  {
    hide HolesOk, PageHoles, Fits, SkipTo, FindFit, Unused, OnPage;
    FindFitExact(h, min, count * PAGE_SIZE);
    var first := SkipTo(h, 0, min);
    var r := ChosenHole(h, min, count);
    if r.Some? {
      SkipToFirst(h, 0, min);
      FindFitFirst(h, first.value, min, count * PAGE_SIZE);
      EndsAbove(h, first.value, r.value, min);
      HoleRoundsDown(h, r.value, min, count * PAGE_SIZE);
      var base := Max(r.value, min) / PAGE_SIZE;
      assert (base + count) * PAGE_SIZE == base * PAGE_SIZE + count * PAGE_SIZE;
    }
  }
}
