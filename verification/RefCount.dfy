/**
 The packed reference count of a page (src/memory/mod.rs).

 A used page stores `RC_USED | (RC_SHARED)? | count - 1` in one 64-bit word. The functions on
 `RefCount` say what the count means; the functions on words say what the code stores. The lemmas
 at the end tie the two together for every word.
 */
module RefCounts {
  import opened Common

  type Word = w: nat | w < 0x1_0000_0000_0000_0000

  const RC_USED: nat := 0x8000_0000_0000_0000
  const RC_SHARED: nat := 0x4000_0000_0000_0000
  const RC_MAX: nat := 0x2000_0000_0000_0000

  datatype RefKind = CowKind | SharedKind

  /** `Shared` and `Cow` carry the count, which is then at least two. */
  datatype RefCount = One | Shared(n: nat) | Cow(n: nat)

  datatype AddRefError = CowToShared | SharedToCow | RcOverflow

  datatype AddRefResult = Added(rc: RefCount) | Refused(error: AddRefError)

  function Count(rc: RefCount): nat {
    match rc
    case One => 1
    case Shared(n) => n
    case Cow(n) => n
  }

  /** The counts that a word can hold. */
  predicate WellFormed(rc: RefCount) {
    rc.One? || 2 <= rc.n <= RC_SHARED
  }

  function AddRef(rc: RefCount, kind: RefKind): AddRefResult {
    match (rc, kind)
    case (One, CowKind) => Added(Cow(2))
    case (One, SharedKind) => Added(Shared(2))
    case (Cow(n), CowKind) => if n - 1 >= RC_MAX then Refused(RcOverflow) else Added(Cow(n + 1))
    case (Shared(n), SharedKind) => if n - 1 >= RC_MAX then Refused(RcOverflow) else Added(Shared(n + 1))
    case (Cow(_), SharedKind) => Refused(CowToShared)
    case (Shared(_), CowKind) => Refused(SharedToCow)
  }

  /** The count after dropping one reference; `None` when that was the last one. */
  function RemoveRef(rc: RefCount): Option<RefCount> {
    match rc
    case One => None
    case Cow(n) => if n <= 2 then Some(One) else Some(Cow(n - 1))
    case Shared(n) => if n <= 2 then Some(One) else Some(Shared(n - 1))
  }

  predicate AllowsWritable(rc: RefCount) {
    !rc.Cow?
  }

  // ----- the word -----

  /** `RefCount::from_raw`: a word without the top bit belongs to the free list. */
  function FromRaw(raw: Word): (r: Option<RefCount>)
    ensures r.Some? ==> WellFormed(r.value)
  {
    if raw < RC_USED then None
    else
      var shared := raw - RC_USED >= RC_SHARED;
      var minusOne := if shared then raw - RC_USED - RC_SHARED else raw - RC_USED;
      if minusOne == 0 then Some(One)
      else if shared then Some(Shared(minusOne + 1))
      else Some(Cow(minusOne + 1))
  }

  function ToRaw(rc: RefCount): Word
    requires WellFormed(rc)
  {
    match rc
    case One => RC_USED
    case Shared(n) => n - 1 + RC_SHARED + RC_USED
    case Cow(n) => n - 1 + RC_USED
  }

  function WrappingAdd(w: Word, d: int): Word
    requires -1 <= d <= 1
  {
    if w + d < 0 then 0xFFFF_FFFF_FFFF_FFFF
    else if w + d > 0xFFFF_FFFF_FFFF_FFFF then 0
    else w + d
  }

  /** The bits below the two flags. */
  function CountBits(w: Word): nat {
    if w >= RC_USED + RC_SHARED then w - RC_USED - RC_SHARED
    else if w >= RC_USED then w - RC_USED
    else if w >= RC_SHARED then w - RC_SHARED
    else w
  }

  /** One page's refcount word, with the read-modify-write sequences of `add_ref` and `remove_ref`. */
  class PageRefCount {
    var raw: Word

    constructor (init: RefCount)
      requires WellFormed(init)
      ensures FromRaw(raw) == Some(init)
    {
      raw := ToRaw(init);
    }

    /** Refuses exactly when `AddRef` does, and then leaves the word as it was, even though the
        counting arm first increments and only afterwards looks at what it incremented. */
    method AddReference(kind: RefKind) returns (error: Option<AddRefError>)
      requires FromRaw(raw).Some?
      modifies this
      ensures match AddRef(old(FromRaw(raw)).value, kind)
              case Added(rc) => error == None && FromRaw(raw) == Some(rc)
              case Refused(e) => error == Some(e) && raw == old(raw)
      // one more reference of the kind asked for, unless the page is of the other kind or the count is full
      ensures error == None ==> FromRaw(raw).Some? && Count(FromRaw(raw).value) == Count(old(FromRaw(raw)).value) + 1
      ensures error == None ==> if kind.CowKind? then FromRaw(raw).value.Cow? else FromRaw(raw).value.Shared?
      ensures error == Some(CowToShared) <==> old(FromRaw(raw)).value.Cow? && kind.SharedKind?
      ensures error == Some(SharedToCow) <==> old(FromRaw(raw)).value.Shared? && kind.CowKind?
      ensures error == Some(RcOverflow) ==> Count(old(FromRaw(raw)).value) > 0x2000_0000_0000_0000
      ensures error == None ==> Count(FromRaw(raw).value) <= 0x2000_0000_0000_0000 + 1
    {
      match (FromRaw(raw).value, kind) {
        case (One, CowKind) =>
          raw := RC_USED + 1;
          error := None;
        case (One, SharedKind) =>
          raw := RC_USED + 1 + RC_SHARED;
          error := None;
        case (Cow(_), SharedKind) =>
          error := Some(CowToShared);
        case (Shared(_), CowKind) =>
          error := Some(SharedToCow);
        case (_, _) =>
          var before := raw;
          raw := WrappingAdd(raw, 1);
          if CountBits(before) >= RC_MAX {
            raw := WrappingAdd(raw, -1);
            error := Some(RcOverflow);
          } else {
            error := None;
          }
      }
    }

    /** The last reference leaves the word alone: the page then goes back to the free list, which
        overwrites it. */
    method RemoveReference() returns (left: Option<RefCount>)
      requires FromRaw(raw).Some?
      modifies this
      ensures left == RemoveRef(old(FromRaw(raw)).value)
      ensures left == None ==> raw == old(raw)
      ensures left.Some? ==> FromRaw(raw) == left
    {
      match FromRaw(raw).value {
        case One => left := None;
        case _ =>
          raw := WrappingAdd(raw, -1);
          left := FromRaw(raw);
      }
    }
  }

  /** Every representable count survives the trip through its word, and every used word is one
      count's word up to the shared bit of a count of one, which carries no meaning. */
  lemma RawRoundTrip(rc: RefCount, raw: Word)
    requires WellFormed(rc)
    ensures FromRaw(ToRaw(rc)) == Some(rc)
    ensures raw >= RC_USED ==>
              FromRaw(raw).Some? && (ToRaw(FromRaw(raw).value) == raw || raw == RC_USED + RC_SHARED)
  {
  }

  /** Adding a reference and removing it again gives back the count, whatever its kind. */
  lemma AddThenRemove(rc: RefCount, kind: RefKind)
    requires WellFormed(rc)
    requires AddRef(rc, kind).Added?
    ensures RemoveRef(AddRef(rc, kind).rc) == Some(rc)
    ensures Count(AddRef(rc, kind).rc) == Count(rc) + 1
    ensures WellFormed(AddRef(rc, kind).rc)
  {
  }
}
