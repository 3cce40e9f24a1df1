/**
  What the headers and lists of the page allocator say about the free pages, and how
  taking a chunk off the lists and putting one on them changes that.
 */
module BuddyState {
  import opened Arith
  import opened BuddyChunks
  import opened BuddyLists

  datatype Memory = Memory(links: Links, level: seq<nat>)

  /** The pages of the list of order o are the first pages of the chunks of that order. */
  ghost predicate ListsAre(lists: Lists, chunks: set<Chunk>) {
    && |lists| == FREELIST_SIZE
    && forall o: nat, p: nat :: Listed(lists, o, p) <==>
         o < FREELIST_SIZE && ChunkAt(p, o) in chunks && First(ChunkAt(p, o)) == p
  }

  /** Every chunk is in memory and its header holds its order. */
  ghost predicate Levels(level: seq<nat>, chunks: set<Chunk>) {
    forall c :: c in chunks ==> c.order < FREELIST_SIZE && First(c) < |level| && level[First(c)] == c.order
  }

  ghost predicate InMemory(m: Memory, n: nat) {
    |m.links.next| == n && |m.links.pprev| == n && |m.level| == n
  }

  /** Lists, headers and chunks agree, and the chunks tile the pages in free. */
  ghost predicate Shape(m: Memory, n: nat, lists: Lists, chunks: set<Chunk>, free: set<nat>) {
    && InMemory(m, n)
    && Linked(m.links, lists)
    && Distinct(lists)
    && ListsAre(lists, chunks)
    && Levels(m.level, chunks)
    && Tiling(chunks, free)
  }

  /** Memory after the stores that unlink page p. */
  function Unlinked(m: Memory, p: nat): Memory
    requires p < |m.links.next| && p < |m.links.pprev|
    requires HasSlot(m.links, m.links.pprev[p]) && HasRef(m.links, m.links.next[p])
  {
    var s, r := m.links.pprev[p], m.links.next[p];
    m.(links := StoreBack(Store(m.links, s, r), r, s))
  }

  /** Memory after the stores that make page p a free chunk of order o at the front of its list. */
  function LinkedFront(m: Memory, p: nat, o: nat): Memory
    requires o < |m.links.head| && p < |m.links.next| && p < |m.links.pprev| && p < |m.level|
    requires HasRef(m.links, m.links.head[o])
  {
    Memory(PushStores(m.links, o, p), m.level[p := o])
  }

  lemma ChunkListed(lists: Lists, chunks: set<Chunk>, c: Chunk)
    requires ListsAre(lists, chunks) && c in chunks && c.order < FREELIST_SIZE
    ensures First(c) in lists[c.order]
  {
    FirstIn(c);
    assert ChunkAt(First(c), c.order) == c;
    assert Listed(lists, c.order, First(c));
  }

  /** Unlinking a chunk, wherever it is on its list, leaves the rest of the free pages tiled. */
  lemma TakeStep(m: Memory, n: nat, lists: Lists, chunks: set<Chunk>, free: set<nat>, c: Chunk) returns (lists': Lists)
    requires Shape(m, n, lists, chunks, free) && c in chunks
    ensures InMemory(m, n) && First(c) < n
    ensures HasSlot(m.links, m.links.pprev[First(c)]) && HasRef(m.links, m.links.next[First(c)])
    ensures Shape(Unlinked(m, First(c)), n, lists', chunks - {c}, free - Pages(c)) && Pages(c) <= free
  {
    hide Tiling, Linked, Distinct;
    ChunkListed(lists, chunks, c);
    var o, p := c.order, First(c);
    var k :| 0 <= k < |lists[o]| && lists[o][k] == p;
    UnlinkKeeps(m.links, lists, o, k);
    RemovedDistinct(lists, o, k);
    RemoveChunk(chunks, free, c);
    lists' := Removed(lists, o, k);
    TakenLists(lists, lists', chunks, free, c);
  }

  lemma TakenLists(lists: Lists, lists': Lists, chunks: set<Chunk>, free: set<nat>, c: Chunk)
    requires ListsAre(lists, chunks) && Tiling(chunks, free) && c in chunks && |lists'| == |lists|
    requires forall o, p :: Listed(lists', o, p) <==> Listed(lists, o, p) && p != First(c)
    ensures ListsAre(lists', chunks - {c})
  {
    FirstIn(c);
    forall o: nat, p: nat
      ensures Listed(lists', o, p) <==> o < FREELIST_SIZE && ChunkAt(p, o) in chunks - {c} && First(ChunkAt(p, o)) == p
    {
      assert Listed(lists, o, p) <==> o < FREELIST_SIZE && ChunkAt(p, o) in chunks && First(ChunkAt(p, o)) == p;
      assert In(p, ChunkAt(p, o));
    }
  }

  /** Linking in a block of pages as a chunk adds its pages to the tiling. */
  lemma GiveStep(m: Memory, n: nat, lists: Lists, chunks: set<Chunk>, free: set<nat>, c: Chunk)
    requires Shape(m, n, lists, chunks, free)
    requires c.order < FREELIST_SIZE && First(c) < n && Pages(c) !! free && Buddy(c) !in chunks
    ensures InMemory(m, n) && |lists| == FREELIST_SIZE && c.order < |m.links.head|
    ensures HasRef(m.links, m.links.head[c.order])
    ensures Shape(LinkedFront(m, First(c), c.order), n, Pushed(lists, c.order, First(c)), chunks + {c}, free + Pages(c))
  {
    hide Linked, Distinct;
    NotListed(lists, chunks, free, c);
    PushKeeps(m.links, lists, c.order, First(c));
    PushedDistinct(lists, c.order, First(c));
    AddChunk(chunks, free, c);
    GivenLists(lists, chunks, c);
    GivenLevels(m.level, chunks, free, c);
  }

  lemma NotListed(lists: Lists, chunks: set<Chunk>, free: set<nat>, c: Chunk)
    requires ListsAre(lists, chunks) && Tiling(chunks, free) && Pages(c) !! free
    ensures forall o :: !Listed(lists, o, First(c))
  {
    var p := First(c);
    FirstIn(c);
    assert p in Pages(c) && !Covered(chunks, p);
    forall o
      ensures !Listed(lists, o, p)
    {
      assert In(p, ChunkAt(p, o));
    }
  }

  lemma GivenLists(lists: Lists, chunks: set<Chunk>, c: Chunk)
    requires ListsAre(lists, chunks) && c.order < FREELIST_SIZE && forall o :: !Listed(lists, o, First(c))
    requires forall o, q :: Listed(Pushed(lists, c.order, First(c)), o, q) <==>
               Listed(lists, o, q) || (o == c.order && q == First(c))
    ensures ListsAre(Pushed(lists, c.order, First(c)), chunks + {c})
  {
    var lists' := Pushed(lists, c.order, First(c));
    FirstIn(c);
    forall o: nat, p: nat
      ensures Listed(lists', o, p) <==> o < FREELIST_SIZE && ChunkAt(p, o) in chunks + {c} && First(ChunkAt(p, o)) == p
    {
      assert Listed(lists, o, p) <==> o < FREELIST_SIZE && ChunkAt(p, o) in chunks && First(ChunkAt(p, o)) == p;
    }
  }

  lemma GivenLevels(level: seq<nat>, chunks: set<Chunk>, free: set<nat>, c: Chunk)
    requires Levels(level, chunks) && Tiling(chunks, free) && Pages(c) !! free
    requires c.order < FREELIST_SIZE && First(c) < |level|
    ensures Levels(level[First(c) := c.order], chunks + {c})
  {
    FirstIn(c);
    assert First(c) in Pages(c) && !Covered(chunks, First(c));
    forall d | d in chunks
      ensures First(d) != First(c)
    {
      FirstIn(d);
    }
  }

  // ----- empty lists

  function EmptyHeads(): seq<Ref> { seq(FREELIST_SIZE, (i: nat) => Tail(i)) }

  function EmptyTails(): seq<Slot> { seq(FREELIST_SIZE, (i: nat) => Head(i)) }

  ghost function EmptyLists(): Lists { seq(FREELIST_SIZE, _ => []) }

  lemma EmptyShape(m: Memory, n: nat)
    requires InMemory(m, n) && m.links.head == EmptyHeads() && m.links.tailPprev == EmptyTails()
    ensures Shape(m, n, EmptyLists(), {}, {})
  {
    forall o, i | 0 <= o < FREELIST_SIZE && 0 <= i <= |EmptyLists()[o]|
      ensures LinkedAt(m.links, EmptyLists()[o], o, i)
    {
    }
  }

  // ----- pages that are not free

  /** The headers in pages that are not free do not matter. */
  lemma ForeignStore(m: Memory, n: nat, lists: Lists, chunks: set<Chunk>, free: set<nat>, p: nat, r: Ref, s: Slot,
      l: nat)
    requires Shape(m, n, lists, chunks, free) && p < n && p !in free
    ensures InMemory(m, n)
    ensures Shape(Memory(m.links.(next := m.links.next[p := r], pprev := m.links.pprev[p := s]), m.level[p := l]),
                  n, lists, chunks, free)
  {
    hide Distinct;
    var links := m.links.(next := m.links.next[p := r], pprev := m.links.pprev[p := s]);
    assert !Covered(chunks, p);
    forall o, i | 0 <= o < |lists| && 0 <= i <= |lists[o]|
      ensures LinkedAt(links, lists[o], o, i)
    {
      assert LinkedAt(m.links, lists[o], o, i);
      assert Listed(lists, o, p) ==> In(p, ChunkAt(p, o));
    }
    forall c | c in chunks
      ensures First(c) != p
    {
      FirstIn(c);
    }
  }

  // ----- blocks and ranges

  lemma Split(h: Chunk)
    requires h.order > 0
    ensures var lo, hi := Chunk(h.order - 1, 2 * h.index), Chunk(h.order - 1, 2 * h.index + 1);
            && First(lo) == First(h) && First(hi) == First(h) + Pow2(h.order - 1)
            && Pages(h) == Pages(lo) + Pages(hi) && Pages(lo) !! Pages(hi)
            && Buddy(hi) == lo && Buddy(lo) == hi && Parent(lo) == h && Parent(hi) == h
  {
    hide Pow2, First, Shift;
    SplitFirst(h);
    SplitPages(h);
  }

  lemma SplitFirst(h: Chunk)
    requires h.order > 0
    ensures var lo, hi := Chunk(h.order - 1, 2 * h.index), Chunk(h.order - 1, 2 * h.index + 1);
            First(lo) == First(h) && First(hi) == First(h) + Pow2(h.order - 1)
  {
    hide Pow2;
    DoubleFirst(h.order - 1, h.index);
    FirstNext(Chunk(h.order - 1, 2 * h.index));
  }

  lemma SplitPages(h: Chunk)
    requires h.order > 0
    ensures var lo, hi := Chunk(h.order - 1, 2 * h.index), Chunk(h.order - 1, 2 * h.index + 1);
            Pages(h) == Pages(lo) + Pages(hi) && Pages(lo) !! Pages(hi)
  {
    hide Shift;
    HalvesAll(h);
  }

  lemma {:induction false} DoubleFirst(o: nat, b: nat)
    ensures First(Chunk(o, 2 * b)) == 2 * First(Chunk(o, b))
    decreases o
  {
    if o > 0 { DoubleFirst(o - 1, b); }
  }

  /** The pages of a chunk as a range of page numbers. */
  lemma PagesAre(c: Chunk)
    ensures forall p: nat :: p in Pages(c) <==> First(c) <= p < First(c) + Pow2(c.order)
  {
    forall p: nat
      ensures p in Pages(c) <==> First(c) <= p < First(c) + Pow2(c.order)
    {
      InRange(p, c);
    }
  }

  /** A chunk that fits below n < 2^52 has an order with a list. */
  lemma OrderFits(c: Chunk, n: nat)
    requires First(c) + Pow2(c.order) <= n < Pow2(FREELIST_SIZE)
    ensures c.order < FREELIST_SIZE
  {
    hide Pow2, First;
    if c.order >= FREELIST_SIZE { PowMono(FREELIST_SIZE, c.order); }
  }
}
