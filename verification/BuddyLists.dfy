/**
  The free lists of the Mini-OS page allocator: one doubly linked list per order, threaded
  through the headers of the free chunks, each element knowing the pointer that points at it.
 */
module BuddyLists {

  /** A chunk_head_t*: the header in a free page, or the tail sentinel of a list. */
  datatype Ref = Page(p: nat) | Tail(o: nat)

  /** A chunk_head_t**: the head pointer of a list, or the next field of a header. */
  datatype Slot = Head(o: nat) | NextOf(p: nat)

  datatype Links = Links(head: seq<Ref>, tailPprev: seq<Slot>, next: seq<Ref>, pprev: seq<Slot>)

  /** The slot is one of the memory of l. */
  predicate HasSlot(l: Links, s: Slot) {
    match s case Head(o) => o < |l.head| case NextOf(p) => p < |l.next|
  }

  predicate HasRef(l: Links, r: Ref) {
    match r case Page(p) => p < |l.pprev| case Tail(o) => o < |l.tailPprev|
  }

  /** *s */
  function Load(l: Links, s: Slot): Ref
    requires HasSlot(l, s)
  {
    match s case Head(o) => l.head[o] case NextOf(p) => l.next[p]
  }

  /** r->pprev */
  function Back(l: Links, r: Ref): Slot
    requires HasRef(l, r)
  {
    match r case Page(p) => l.pprev[p] case Tail(o) => l.tailPprev[o]
  }

  /** *s = r */
  function Store(l: Links, s: Slot, r: Ref): Links
    requires HasSlot(l, s)
  {
    match s case Head(o) => l.(head := l.head[o := r]) case NextOf(p) => l.(next := l.next[p := r])
  }

  /** r->pprev = s */
  function StoreBack(l: Links, r: Ref, s: Slot): Links
    requires HasRef(l, r)
  {
    match r case Page(p) => l.(pprev := l.pprev[p := s]) case Tail(o) => l.(tailPprev := l.tailPprev[o := s])
  }

  // ----- what the memory means: a sequence of pages for every order

  type Lists = seq<seq<nat>>

  /** What position i of list o is. */
  function RefAt(s: seq<nat>, o: nat, i: nat): Ref {
    if i < |s| then Page(s[i]) else Tail(o)
  }

  /** What points at position i of list o. */
  function SlotAt(s: seq<nat>, o: nat, i: nat): Slot
    requires i <= |s|
  {
    if i == 0 then Head(o) else NextOf(s[i - 1])
  }

  /** Position i of list o is linked in both directions. */
  ghost predicate LinkedAt(l: Links, s: seq<nat>, o: nat, i: nat)
    requires i <= |s|
  {
    && HasSlot(l, SlotAt(s, o, i)) && HasRef(l, RefAt(s, o, i))
    && Load(l, SlotAt(s, o, i)) == RefAt(s, o, i)
    && Back(l, RefAt(s, o, i)) == SlotAt(s, o, i)
  }

  ghost predicate Linked(l: Links, lists: Lists) {
    forall o, i :: 0 <= o < |lists| && 0 <= i <= |lists[o]| ==> LinkedAt(l, lists[o], o, i)
  }

  /** No page is on the lists twice. */
  ghost predicate Distinct(lists: Lists) {
    forall o, i, o', i' | 0 <= o < |lists| && 0 <= i < |lists[o]| && 0 <= o' < |lists| && 0 <= i' < |lists[o']| ::
      lists[o][i] == lists[o'][i'] ==> o == o' && i == i'
  }

  ghost predicate Listed(lists: Lists, o: nat, p: nat) {
    o < |lists| && p in lists[o]
  }

  /** The lists after taking position k out of list o. */
  ghost function Removed(lists: Lists, o: nat, k: nat): Lists
    requires o < |lists| && k < |lists[o]|
  {
    lists[o := lists[o][..k] + lists[o][k + 1..]]
  }

  ghost function Pushed(lists: Lists, o: nat, p: nat): Lists
    requires o < |lists|
  {
    lists[o := [p] + lists[o]]
  }

  // ----- unlinking

  /** The two stores that unlink a chunk from the list it is on, whatever its position. */
  lemma UnlinkKeeps(l: Links, lists: Lists, o: nat, k: nat)
    requires Linked(l, lists) && Distinct(lists) && o < |lists| && k < |lists[o]|
    ensures HasRef(l, Page(lists[o][k])) && HasSlot(l, NextOf(lists[o][k]))
    ensures var p := lists[o][k];
            var s, r := l.pprev[p], l.next[p];
            HasSlot(l, s) && HasRef(l, r) && Linked(StoreBack(Store(l, s, r), r, s), Removed(lists, o, k))
  {
    var p := lists[o][k];
    assert LinkedAt(l, lists[o], o, k) && LinkedAt(l, lists[o], o, k + 1);
    var s, r := l.pprev[p], l.next[p];
    assert s == SlotAt(lists[o], o, k) && r == RefAt(lists[o], o, k + 1);
    var l', lists' := StoreBack(Store(l, s, r), r, s), Removed(lists, o, k);
    forall o', i | 0 <= o' < |lists'| && 0 <= i <= |lists'[o']|
      ensures LinkedAt(l', lists'[o'], o', i)
    {
      if o' == o {
        UnlinkedAt(l, lists, o, k, i);
      } else {
        assert LinkedAt(l, lists[o'], o', i);
      }
    }
  }

  /** The case of the list that loses the chunk. */
  lemma UnlinkedAt(l: Links, lists: Lists, o: nat, k: nat, i: nat)
    requires Linked(l, lists) && Distinct(lists) && o < |lists| && k < |lists[o]| && i < |lists[o]|
    requires HasSlot(l, SlotAt(lists[o], o, k)) && HasRef(l, RefAt(lists[o], o, k + 1))
    ensures var s, r := SlotAt(lists[o], o, k), RefAt(lists[o], o, k + 1);
            LinkedAt(StoreBack(Store(l, s, r), r, s), Removed(lists, o, k)[o], o, i)
  {
    var was, now := lists[o], Removed(lists, o, k)[o];
    if i < k {
      assert LinkedAt(l, was, o, i);
      assert now[i] == was[i];
      assert i > 0 ==> now[i - 1] == was[i - 1];
    } else if i == k {
      assert LinkedAt(l, was, o, k + 1);
      assert k < |now| ==> now[k] == was[k + 1];
      assert k > 0 ==> now[k - 1] == was[k - 1];
    } else {
      assert LinkedAt(l, was, o, i + 1);
      assert i < |now| ==> now[i] == was[i + 1];
      assert now[i - 1] == was[i];
    }
  }

  lemma RemovedDistinct(lists: Lists, o: nat, k: nat)
    requires Distinct(lists) && o < |lists| && k < |lists[o]|
    ensures Distinct(Removed(lists, o, k))
    ensures forall o', p :: Listed(Removed(lists, o, k), o', p) <==> Listed(lists, o', p) && p != lists[o][k]
  {
    var was, now := lists[o], Removed(lists, o, k)[o];
    assert forall i :: 0 <= i < |now| ==> now[i] == if i < k then was[i] else was[i + 1];
    forall o', p
      ensures Listed(Removed(lists, o, k), o', p) <==> Listed(lists, o', p) && p != lists[o][k]
    {
      if o' == o { InRemoved(was, k, p); }
    }
  }

  lemma InRemoved(s: seq<nat>, k: nat, p: nat)
    requires k < |s| && forall i, j :: 0 <= i < j < |s| ==> s[i] != s[j]
    ensures p in s[..k] + s[k + 1..] <==> p in s && p != s[k]
  {
    if p in s && p != s[k] {
      var i :| 0 <= i < |s| && s[i] == p;
      assert i < k ==> p == s[..k][i];
      assert i > k ==> p == s[k + 1..][i - k - 1];
    }
  }

  // ----- linking in at the front

  /** The four stores that link page p in front of list o. */
  function PushStores(l: Links, o: nat, p: nat): Links
    requires o < |l.head| && p < |l.next| && p < |l.pprev| && HasRef(l, l.head[o])
  {
    var l1 := StoreBack(Store(l, NextOf(p), l.head[o]), Page(p), Head(o));
    var l2 := StoreBack(l1, l.head[o], NextOf(p));
    Store(l2, Head(o), Page(p))
  }

  lemma PushKeeps(l: Links, lists: Lists, o: nat, p: nat)
    requires Linked(l, lists) && Distinct(lists) && o < |lists|
    requires p < |l.next| && p < |l.pprev| && forall o' :: !Listed(lists, o', p)
    ensures o < |l.head| && HasRef(l, l.head[o])
    ensures Linked(PushStores(l, o, p), Pushed(lists, o, p))
  {
    assert LinkedAt(l, lists[o], o, 0);
    var l', lists' := PushStores(l, o, p), Pushed(lists, o, p);
    forall o', i | 0 <= o' < |lists'| && 0 <= i <= |lists'[o']|
      ensures LinkedAt(l', lists'[o'], o', i)
    {
      assert !Listed(lists, o', p);
      if o' == o {
        PushedAt(l, lists, o, p, i);
      } else {
        assert LinkedAt(l, lists[o'], o', i);
      }
    }
  }

  lemma PushedAt(l: Links, lists: Lists, o: nat, p: nat, i: nat)
    requires Linked(l, lists) && Distinct(lists) && o < |lists| && i <= |lists[o]| + 1
    requires p < |l.next| && p < |l.pprev| && p !in lists[o]
    requires o < |l.head| && HasRef(l, l.head[o])
    ensures LinkedAt(PushStores(l, o, p), Pushed(lists, o, p)[o], o, i)
  {
    var was, now := lists[o], Pushed(lists, o, p)[o];
    assert LinkedAt(l, was, o, 0);
    if i > 0 {
      assert LinkedAt(l, was, o, i - 1);
      assert i < |now| ==> now[i] == was[i - 1];
      assert i > 1 ==> now[i - 1] == was[i - 2];
    }
  }

  lemma PushedDistinct(lists: Lists, o: nat, p: nat)
    requires Distinct(lists) && o < |lists| && forall o' :: !Listed(lists, o', p)
    ensures Distinct(Pushed(lists, o, p))
    ensures forall o', q :: Listed(Pushed(lists, o, p), o', q) <==> Listed(lists, o', q) || (o' == o && q == p)
  {
    var lists' := Pushed(lists, o, p);
    forall a, i, b, j | 0 <= a < |lists'| && 0 <= i < |lists'[a]| && 0 <= b < |lists'| && 0 <= j < |lists'[b]| &&
        lists'[a][i] == lists'[b][j]
      ensures a == b && i == j
    {
      assert !Listed(lists, a, p) && !Listed(lists, b, p);
    }
  }
}
