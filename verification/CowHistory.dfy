/**
 What a location of the copy-on-write address spaces is and holds, told from the calls made and their
 reports alone: which pages exist, with which rights, which locations are one piece of memory, and the
 last byte stored in each place. No kernel state and none of its operations are mentioned.
 */
module CowHistory {
  import opened Common
  import opened CowModel

  // ----- one step -----

  /** The call made this page, zeroed. */
  predicate Maps(op: Op, o: Obs, l: Loc) {
    op.ZeroMap? && o.Done? && l.PageLoc? && l.space == op.space && op.base <= l.page < op.base + op.count
  }

  /** The call removed this location. */
  predicate Removes(op: Op, o: Obs, l: Loc) {
    || (op.Unmap? && o.Done? && l.PageLoc? && l.space == op.space && l.page in op.pages)
    || (op.Release? && o.Done? && l == HandleLoc(op.id))
  }

  predicate Clones(op: Op, o: Obs, l: Loc) {
    op.Clone? && o.Created? && l.PageLoc? && l.space == o.id
  }

  predicate Lends(op: Op, o: Obs, l: Loc) {
    op.Borrow? && o.Created? && l == HandleLoc(o.id)
  }

  /** Where the location was before the call: elsewhere, if the call cloned or borrowed it. */
  function From(op: Op, o: Obs, l: Loc): Loc {
    if Clones(op, o, l) then PageLoc(op.space, l.page)
    else if Lends(op, o, l) then PageLoc(op.space, op.page)
    else l
  }

  predicate Stores(op: Op, o: Obs) {
    (op.Store? || op.HandleStore?) && o.Done?
  }

  function Target(op: Op): Loc
    requires op.Store? || op.HandleStore?
  {
    if op.Store? then PageLoc(op.space, op.page) else HandleLoc(op.id)
  }

  // ----- histories -----

  datatype History = History(ops: seq<Op>, obs: seq<Obs>) {
    predicate LiveSpace(i: nat, s: nat)
      requires i <= |ops| == |obs|
    {
      if i == 0 then false
      else
        var op, o := ops[i - 1], obs[i - 1];
        if (op.NewSpace? || op.Clone?) && o == Created(s) then true
        else if op == DropSpace(s) && o.Done? then false
        else LiveSpace(i - 1, s)
    }

    /** The page is granted, or the frame is borrowed. */
    predicate Has(i: nat, l: Loc)
      requires i <= |ops| == |obs|
    {
      if i == 0 then false
      else
        var op, o := ops[i - 1], obs[i - 1];
        Maps(op, o, l) || (!Removes(op, o, l) && Has(i - 1, From(op, o, l)))
    }

    function AttrAt(i: nat, l: Loc): Attr
      requires i <= |ops| == |obs|
    {
      if i == 0 then Attr(false, false, false)
      else
        var op, o := ops[i - 1], obs[i - 1];
        if Maps(op, o, l) then op.attr else AttrAt(i - 1, From(op, o, l))
    }

    /** Step `i` makes a new piece of memory for the location: a mapping, or the copy of a private page. */
    predicate Makes(i: nat, l: Loc)
      requires i < |ops| == |obs|
    {
      var op, o := ops[i], obs[i];
      Maps(op, o, l) || (Clones(op, o, l) && !AttrAt(i, From(op, o, l)).shared)
    }

    /** The piece of memory behind a location, named by the step and the location it was made for. */
    function Object(i: nat, l: Loc): (nat, Loc)
      requires i <= |ops| == |obs|
    {
      if i == 0 then (0, l)
      else if Makes(i - 1, l) then (i, l)
      else Object(i - 1, From(ops[i - 1], obs[i - 1], l))
    }

    /** The last value stored there, zero if nothing was. */
    function Content(i: nat, l: Loc, b: nat): nat
      requires i <= |ops| == |obs|
    {
      if i == 0 then 0
      else
        var op, o := ops[i - 1], obs[i - 1];
        if Maps(op, o, l) then 0
        else if Stores(op, o) && op.off == b && Object(i - 1, Target(op)) == Object(i - 1, l) then op.value
        else Content(i - 1, From(op, o, l), b)
    }
  }

  /** Private pages are alone: only a shared page is one piece of memory with another page. */
  lemma {:induction false} PrivatePagesAreAlone(h: History, i: nat, l: Loc, m: Loc)
    requires i <= |h.ops| == |h.obs| && l.PageLoc? && m.PageLoc? && l != m
    requires h.Has(i, l) && h.Has(i, m) && h.Object(i, l) == h.Object(i, m)
    ensures h.AttrAt(i, l).shared && h.AttrAt(i, m).shared
    decreases i
  {
    if i > 0 {
      var op, o := h.ops[i - 1], h.obs[i - 1];
      ObjectIsOld(h, i - 1, From(op, o, l));
      ObjectIsOld(h, i - 1, From(op, o, m));
      var l0, m0 := From(op, o, l), From(op, o, m);
      if l0 != m0 {
        if !h.Makes(i - 1, l) && !h.Makes(i - 1, m) {
          PrivatePagesAreAlone(h, i - 1, l0, m0);
        }
      }
    }
  }

  lemma {:induction false} ObjectIsOld(h: History, i: nat, l: Loc)
    requires i <= |h.ops| == |h.obs|
    ensures h.Object(i, l).0 <= i
    decreases i
  {
    if i > 0 {
      ObjectIsOld(h, i - 1, From(h.ops[i - 1], h.obs[i - 1], l));
    }
  }
}
