/**
 The specification of the copy-on-write address spaces: memory in which every clone copies.

 Each page of each grant, and each frame the kernel has borrowed, refers to a cell. A private page
 of a clone gets a cell of its own with a copy of the data; a shared page refers to the parent's
 cell. There are no frames, counts, faults or protection bits on entries here.
 */
module CowEager {
  import opened Common
  import opened RefCounts
  import opened CowModel

  datatype Eager = Eager(
    cellOf: map<Loc, nat>,
    cells: map<nat, PageData>,
    attrs: map<Loc, Attr>,
    spaces: set<nat>,
    nextCell: nat,
    nextSpace: nat,
    nextHandle: nat)

  function ReadCell(e: Eager, l: Loc): PageData {
    if l in e.cellOf && e.cellOf[l] in e.cells then e.cells[e.cellOf[l]] else ZeroPage()
  }

  function WriteCell(e: Eager, l: Loc, off: nat, value: Byte): Eager {
    if l in e.cellOf && e.cellOf[l] in e.cells
    then
      var d := e.cells[e.cellOf[l]];
      e.(cells := e.cells[e.cellOf[l] := seq(PAGE_SIZE, b requires 0 <= b < PAGE_SIZE => if b == off then value else d[b])])
    else e
  }

  function NewCell(e: Eager, l: Loc, attr: Attr, data: PageData): Eager {
    e.(cellOf := e.cellOf[l := e.nextCell], cells := e.cells[e.nextCell := data],
       attrs := e.attrs[l := attr], nextCell := e.nextCell + 1)
  }

  /** Deep copy of a private page, alias of a shared one. */
  function CopyCell(e: Eager, src: Loc, dst: Loc): Eager
    requires src in e.attrs && src in e.cellOf
  {
    if e.attrs[src].shared
    then e.(cellOf := e.cellOf[dst := e.cellOf[src]], attrs := e.attrs[dst := e.attrs[src]])
    else NewCell(e, dst, e.attrs[src], ReadCell(e, src))
  }

  function CopyCells(e: Eager, s: nat, t: nat, pages: seq<nat>): Eager
    decreases |pages|
  {
    if pages == [] then e
    else
      var src, dst := PageLoc(s, pages[0]), PageLoc(t, pages[0]);
      CopyCells(if src in e.attrs && src in e.cellOf then CopyCell(e, src, dst) else e, s, t, pages[1..])
  }

  function DropCell(e: Eager, l: Loc): Eager {
    e.(cellOf := e.cellOf - {l}, attrs := e.attrs - {l})
  }

  function DropCells(e: Eager, s: nat, pages: seq<nat>): Eager
    decreases |pages|
  {
    if pages == [] then e else DropCells(DropCell(e, PageLoc(s, pages[0])), s, pages[1..])
  }

  function ZeroCells(e: Eager, s: nat, base: nat, count: nat, attr: Attr): Eager
    decreases count
  {
    if count == 0 then e
    else ZeroCells(NewCell(e, PageLoc(s, base), attr, ZeroPage()), s, base + 1, count - 1, attr)
  }

  function EagerStep(e: Eager, op: Op): (Eager, Obs) {
    match op
    case NewSpace =>
      (e.(spaces := e.spaces + {e.nextSpace}, nextSpace := e.nextSpace + 1), Created(e.nextSpace))
    case ZeroMap(s, base, count, attr) =>
      if s !in e.spaces || !NoConflict(e.attrs, s, base, count) then (e, Rejected)
      else (ZeroCells(e, s, base, count, attr), Done)
    case Load(s, p, access) =>
      var l := PageLoc(s, p);
      if l in e.attrs && (access.WriteAccess? ==> e.attrs[l].write) && (access.FetchAccess? ==> e.attrs[l].exec)
      then (e, Value(ReadCell(e, l))) else (e, Segv)
    case Store(s, p, off, v) =>
      var l := PageLoc(s, p);
      if l in e.attrs && e.attrs[l].write then (WriteCell(e, l, off, v), Done) else (e, Segv)
    case Clone(s, plan) =>
      if s !in e.spaces || !IsPlan(e.attrs, s, plan) then (e, Rejected)
      else
        var t := e.nextSpace;
        (CopyCells(e.(nextSpace := t + 1), s, t, Flatten(plan)).(spaces := e.spaces + {t}), Created(t))
    case Unmap(s, pages) =>
      if s !in e.spaces then (e, Rejected) else (DropCells(e, s, pages), Done)
    case DropSpace(s) =>
      if s !in e.spaces || !NoPages(e.attrs, s) then (e, Rejected)
      else (e.(spaces := e.spaces - {s}), Done)
    case Borrow(s, p) =>
      var l := PageLoc(s, p);
      if l !in e.attrs || l !in e.cellOf || e.attrs[l].shared then (e, Rejected)
      // a page that is not writable is refused with the error code of a full memory
      else if !e.attrs[l].write then (e, OutOfMemory)
      else
        (e.(cellOf := e.cellOf[HandleLoc(e.nextHandle) := e.cellOf[l]], nextHandle := e.nextHandle + 1),
         Created(e.nextHandle))
    case HandleLoad(h) =>
      if HandleLoc(h) in e.cellOf then (e, Value(ReadCell(e, HandleLoc(h)))) else (e, Rejected)
    case HandleStore(h, off, v) =>
      if HandleLoc(h) in e.cellOf then (WriteCell(e, HandleLoc(h), off, v), Done) else (e, Rejected)
    case Release(h) =>
      if HandleLoc(h) in e.cellOf then (DropCell(e, HandleLoc(h)), Done) else (e, Rejected)
    case Reorder(pool) => (e, Done)
  }

  /** A step that ran out of memory does nothing; a failed clone still uses up its number. */
  function EagerFailed(e: Eager, op: Op): Eager {
    if op.Clone? then e.(nextSpace := e.nextSpace + 1) else e
  }

  const EagerBoot: Eager := Eager(map[], map[], map[], {}, 0, 0, 0)
}
