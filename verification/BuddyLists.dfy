/**
 The free lists of the frame allocator: doubly linked through the two words of each page's
 `PageInfo` (src/memory/mod.rs), one list for each order.
 */
module BuddyLists {
  import opened Common

  const ORDER_COUNT: nat := 11

  /** `P2Frame`: a link together with the order of the block that holds it. */
  datatype P2Frame = P2Frame(frame: Option<nat>, order: nat)

  /** A used page keeps its reference count in the first word; a free one its links. */
  datatype PageInfo = Used | Unused(prev: P2Frame, next: P2Frame)

  type Infos = map<nat, PageInfo>

  // ----- the packed word -----

  /** Frame address and order share one word, because addresses are page aligned. */
  function Pack(p: P2Frame): nat {
    (match p.frame case None => 0 case Some(f) => f * PAGE_SIZE) + p.order
  }

  function Unpack(w: nat): P2Frame {
    P2Frame(if w / PAGE_SIZE == 0 then None else Some(w / PAGE_SIZE), w % PAGE_SIZE)
  }

  /** Frame 0 is the one that cannot be told from no frame. */
  lemma PackRoundTrip(p: P2Frame)
    requires p.order < PAGE_SIZE
    ensures Unpack(Pack(p)) == p <==> p.frame != Some(0)
    // the order is in the low bits, the address of the frame above them
    ensures Pack(p) % PAGE_SIZE == p.order && (p.frame.Some? ==> Pack(p) - p.order == p.frame.value * PAGE_SIZE)
  {
    if p.frame.Some? {
      assert Pack(p) / PAGE_SIZE == p.frame.value;
    }
  }

  // ----- one list -----

  function Node(l: seq<nat>, i: nat, o: nat): (n: PageInfo)
    requires i < |l|
    ensures n.Unused?
  {
    Unused(P2Frame(if i == 0 then None else Some(l[i - 1]), o),
           P2Frame(if i + 1 == |l| then None else Some(l[i + 1]), o))
  }

  ghost predicate NoRepeats(l: seq<nat>) {
    forall i, j | 0 <= i < j < |l| :: l[i] != l[j]
  }

  function First(l: seq<nat>): Option<nat> {
    if l == [] then None else Some(l[0])
  }

  /** The infos hold the list `l` of blocks of order `o`. */
  ghost predicate Linked(infos: Infos, l: seq<nat>, o: nat) {
    NoRepeats(l) && forall i | 0 <= i < |l| :: l[i] in infos && infos[l[i]] == Node(l, i, o)
  }

  lemma LinkedFrame(infos: Infos, infos1: Infos, l: seq<nat>, o: nat)
    requires Linked(infos, l, o)
    requires forall f :: f in l ==> f in infos1 && infos1[f] == infos[f]
    ensures Linked(infos1, l, o)
  {
  }

  function SetPrev(infos: Infos, at: Option<nat>, p: P2Frame): Infos {
    if at.Some? && at.value in infos && infos[at.value].Unused?
    then infos[at.value := infos[at.value].(prev := p)] else infos
  }

  function SetNext(infos: Infos, at: Option<nat>, n: P2Frame): Infos {
    if at.Some? && at.value in infos && infos[at.value].Unused?
    then infos[at.value := infos[at.value].(next := n)] else infos
  }

  /** Takes `s` out of its list by linking its neighbours to each other. */
  function Unlink(infos: Infos, s: nat): Infos
    requires s in infos && infos[s].Unused?
  {
    SetPrev(SetNext(infos, infos[s].prev.frame, infos[s].next), infos[s].next.frame, infos[s].prev)
  }

  function Without(l: seq<nat>, i: nat): seq<nat>
    requires i < |l|
  {
    l[..i] + l[i + 1..]
  }

  lemma WithoutElements(l: seq<nat>, i: nat)
    requires NoRepeats(l) && i < |l|
    ensures NoRepeats(Without(l, i))
    ensures forall f :: f in Without(l, i) <==> f in l && f != l[i]
    ensures First(Without(l, i)) == if i > 0 then First(l) else if |l| == 1 then None else Some(l[1])
  {
    var l1 := Without(l, i);
    forall f | f in l && f != l[i]
      ensures f in l1
    {
      var j :| 0 <= j < |l| && l[j] == f;
      assert f == if j < i then l1[j] else l1[j - 1];
    }
  }

  /** The neighbours of the removed node point past it; no other node changes. */
  lemma NodeWithout(l: seq<nat>, i: nat, o: nat, j: nat)
    requires i < |l| && j < |l| && j != i
    ensures Node(Without(l, i), if j < i then j else j - 1, o) ==
            if j + 1 == i then Unused(Node(l, j, o).prev, Node(l, i, o).next)
            else if j == i + 1 then Unused(Node(l, i, o).prev, Node(l, j, o).next)
            else Node(l, j, o)
  {
    var l1 := Without(l, i);
    assert forall k | 0 <= k < |l1| :: l1[k] == if k < i then l[k] else l[k + 1];
  }

  /** What `Unlink` leaves at one page, given distinct neighbours. */
  lemma UnlinkAt(infos: Infos, s: nat, x: nat)
    requires s in infos && infos[s].Unused? && x in infos
    requires var p, n := infos[s].prev.frame, infos[s].next.frame;
             && (p.Some? ==> p.value in infos && infos[p.value].Unused? && p != n)
             && (n.Some? ==> n.value in infos && infos[n.value].Unused?)
    ensures var p, n := infos[s].prev.frame, infos[s].next.frame;
            && x in Unlink(infos, s)
            && (p == Some(x) ==> Unlink(infos, s)[x] == infos[x].(next := infos[s].next))
            && (n == Some(x) ==> Unlink(infos, s)[x] == infos[x].(prev := infos[s].prev))
            && (p != Some(x) && n != Some(x) ==> Unlink(infos, s)[x] == infos[x])
  {
  }

  lemma UnlinkNode(infos: Infos, l: seq<nat>, i: nat, o: nat, j: nat)
    requires Linked(infos, l, o) && i < |l| && j < |l| && j != i
    ensures var infos1 := Unlink(infos, l[i]);
            && l[j] in infos1
            && infos1[l[j]] ==
               (if j + 1 == i then Unused(Node(l, j, o).prev, Node(l, i, o).next)
                else if j == i + 1 then Unused(Node(l, i, o).prev, Node(l, j, o).next)
                else Node(l, j, o))
  {
    hide Unlink;
    assert infos[l[i]] == Node(l, i, o) && infos[l[j]] == Node(l, j, o);
    UnlinkAt(infos, l[i], l[j]);
  }

  lemma FirstNode(l: seq<nat>, o: nat)
    requires l != []
    ensures Node(l, 0, o).Unused? && Node(l, 0, o).next.frame == if |l| == 1 then None else Some(l[1])
  {
  }

  lemma UnlinkOthers(infos: Infos, l: seq<nat>, i: nat, o: nat)
    requires Linked(infos, l, o) && i < |l|
    ensures forall f :: f in infos && f !in l ==> f in Unlink(infos, l[i]) && Unlink(infos, l[i])[f] == infos[f]
    ensures Unlink(infos, l[i]).Keys == infos.Keys
    ensures Unlink(infos, l[i])[l[i]] == infos[l[i]]
  {
    assert infos[l[i]] == Node(l, i, o);
  }

  lemma UnlinkKeeps(infos: Infos, l: seq<nat>, i: nat, o: nat)
    requires Linked(infos, l, o) && i < |l|
    ensures Linked(Unlink(infos, l[i]), Without(l, i), o)
    ensures infos[l[i]].Unused? && First(Without(l, i)) == if i == 0 then infos[l[i]].next.frame else First(l)
  {
    hide Node, Unlink;
    WithoutElements(l, i);
    var l1 := Without(l, i);
    assert forall k | 0 <= k < |l1| :: l1[k] == if k < i then l[k] else l[k + 1];
    forall j | 0 <= j < |l1|
      ensures l1[j] in Unlink(infos, l[i]) && Unlink(infos, l[i])[l1[j]] == Node(l1, j, o)
    {
      UnlinkNode(infos, l, i, o, if j < i then j else j + 1);
      NodeWithout(l, i, o, if j < i then j else j + 1);
    }
    FirstNode(l, o);
  }

  /** Puts `c` in front of the list `l`. */
  function Push(infos: Infos, c: nat, l: Option<nat>, o: nat): Infos {
    SetPrev(infos[c := Unused(P2Frame(None, o), P2Frame(l, o))], l, P2Frame(Some(c), o))
  }

  lemma PushKeeps(infos: Infos, l: seq<nat>, c: nat, o: nat)
    requires Linked(infos, l, o) && c !in l
    ensures Linked(Push(infos, c, First(l), o), [c] + l, o)
    ensures forall f :: f in infos && f !in l && f != c ==>
              f in Push(infos, c, First(l), o) && Push(infos, c, First(l), o)[f] == infos[f]
    ensures Push(infos, c, First(l), o).Keys == infos.Keys + {c}
  {
    var infos1 := Push(infos, c, First(l), o);
    var l1 := [c] + l;
    forall j | 0 <= j < |l1|
      ensures l1[j] in infos1 && infos1[l1[j]] == Node(l1, j, o)
    {
      if j > 0 {
        assert l1[j] == l[j - 1];
      }
    }
  }

  // ----- all lists -----

  ghost predicate AllLinked(infos: Infos, heads: seq<Option<nat>>, lists: seq<seq<nat>>) {
    && |heads| == |lists| == ORDER_COUNT
    && (forall o | 0 <= o < ORDER_COUNT :: Linked(infos, lists[o], o) && heads[o] == First(lists[o]))
  }

  ghost predicate Separate(lists: seq<seq<nat>>) {
    forall o, q | 0 <= o < |lists| && 0 <= q < |lists| && o != q :: forall f :: f in lists[o] ==> f !in lists[q]
  }

  /** Replacing one list, with changes confined to it, leaves the others linked. */
  lemma ReplaceList(infos: Infos, infos1: Infos, heads: seq<Option<nat>>, lists: seq<seq<nat>>, o: nat, l: seq<nat>)
    requires AllLinked(infos, heads, lists) && Separate(lists) && o < ORDER_COUNT
    requires Linked(infos1, l, o)
    requires forall q, f :: 0 <= q < ORDER_COUNT && q != o && f in lists[q] ==> f in infos1 && infos1[f] == infos[f]
    ensures AllLinked(infos1, heads[o := First(l)], lists[o := l])
  {
    var lists1 := lists[o := l];
    forall q | 0 <= q < ORDER_COUNT
      ensures Linked(infos1, lists1[q], q)
    {
      if q != o {
        LinkedFrame(infos, infos1, lists[q], q);
      }
    }
  }
}
