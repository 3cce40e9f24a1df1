/**
  Naturally aligned blocks of pages, and sets of them that tile the free pages of memory
  the way a buddy allocator keeps them.
 */
module BuddyChunks {
  import opened Arith

  const FREELIST_SIZE: nat := 52  // (sizeof(void*) << 3) - PAGE_SHIFT

  /** The 2^order pages whose number, shifted right by order, is index. */
  datatype Chunk = Chunk(order: nat, index: nat)

  /** p >> o. */
  function Shift(p: nat, o: nat): nat {
    if o == 0 then p else Shift(p / 2, o - 1)
  }

  /** Page p is in chunk c. */
  predicate In(p: nat, c: Chunk) { Shift(p, c.order) == c.index }

  /** The first page of a chunk: index << order. */
  function First(c: Chunk): nat
    decreases c.order
  {
    if c.order == 0 then c.index else 2 * First(Chunk(c.order - 1, c.index))
  }

  function Parent(c: Chunk): Chunk { Chunk(c.order + 1, c.index / 2) }

  function Buddy(c: Chunk): Chunk {
    Chunk(c.order, if c.index % 2 == 1 then c.index - 1 else c.index + 1)
  }

  /** The chunk of order o that page p is in. */
  function ChunkAt(p: nat, o: nat): Chunk { Chunk(o, Shift(p, o)) }

  function Pages(c: Chunk): (s: set<nat>)
    ensures forall p: nat :: p in s <==> In(p, c)
    decreases c.order
  {
    if c.order == 0 then {c.index}
    else
      var lo, hi := Chunk(c.order - 1, 2 * c.index), Chunk(c.order - 1, 2 * c.index + 1);
      assert forall p: nat :: In(p, c) <==> In(p, lo) || In(p, hi) by { HalvesAll(c); }
      Pages(lo) + Pages(hi)
  }

  // ----- shifting

  lemma {:induction false} ShiftStep(p: nat, o: nat)
    ensures Shift(p, o + 1) == Shift(p, o) / 2
    decreases o
  {
    if o > 0 { ShiftStep(p / 2, o - 1); }
  }

  /** Pages in one chunk of some order are in one chunk of every larger order. */
  lemma {:induction false} ShiftUp(p: nat, q: nat, o: nat, o': nat)
    requires Shift(p, o) == Shift(q, o) && o <= o'
    ensures Shift(p, o') == Shift(q, o')
    decreases o'
  {
    if o < o' {
      ShiftUp(p, q, o, o' - 1);
      ShiftStep(p, o' - 1);
      ShiftStep(q, o' - 1);
    }
  }

  lemma Halves(c: Chunk, p: nat)
    requires c.order > 0
    ensures In(p, c) <==> In(p, Chunk(c.order - 1, 2 * c.index)) || In(p, Chunk(c.order - 1, 2 * c.index + 1))
  {
    ShiftStep(p, c.order - 1);
  }

  lemma HalvesAll(c: Chunk)
    requires c.order > 0
    ensures forall p: nat :: In(p, c) <==>
              In(p, Chunk(c.order - 1, 2 * c.index)) || In(p, Chunk(c.order - 1, 2 * c.index + 1))
  {
    forall p: nat
      ensures In(p, c) <==> In(p, Chunk(c.order - 1, 2 * c.index)) || In(p, Chunk(c.order - 1, 2 * c.index + 1))
    {
      Halves(c, p);
    }
  }

  /** A chunk is a run of 2^order pages. */
  lemma {:induction false} InRange(p: nat, c: Chunk)
    ensures In(p, c) <==> First(c) <= p < First(c) + Pow2(c.order)
    decreases c.order
  {
    if c.order > 0 { InRange(p / 2, Chunk(c.order - 1, c.index)); }
  }

  lemma FirstIn(c: Chunk)
    ensures In(First(c), c)
  {
    InRange(First(c), c);
  }

  lemma {:induction false} FirstNext(c: Chunk)
    ensures First(Chunk(c.order, c.index + 1)) == First(c) + Pow2(c.order)
    decreases c.order
  {
    if c.order > 0 { FirstNext(Chunk(c.order - 1, c.index)); }
  }

  /** The first page of a chunk is the first page of every smaller chunk it is in. */
  lemma {:induction false} FirstAligned(d: Chunk, o: nat)
    requires o <= d.order
    ensures First(ChunkAt(First(d), o)) == First(d)
    decreases o
  {
    if o > 0 { FirstAligned(Chunk(d.order - 1, d.index), o - 1); }
  }

  /** A chunk and its first page determine each other. */
  lemma SameFirst(c: Chunk, d: Chunk)
    requires c.order == d.order && First(c) == First(d)
    ensures c == d
  {
    FirstIn(c);
    FirstIn(d);
  }

  // ----- tilings

  ghost predicate Covered(cs: set<Chunk>, p: nat) {
    exists c :: c in cs && In(p, c)
  }

  ghost predicate Disjoint(cs: set<Chunk>) {
    forall c, d, p: nat :: c in cs && d in cs && In(p, c) && In(p, d) ==> c == d
  }

  /** The chunks are disjoint, cover exactly the pages in free, and no two of them are buddies. */
  ghost predicate Tiling(cs: set<Chunk>, free: set<nat>) {
    && (forall p: nat :: p in free <==> Covered(cs, p))
    && Disjoint(cs)
    && (forall c :: c in cs ==> Buddy(c) !in cs)
  }

  ghost predicate FreeBlock(free: set<nat>, c: Chunk) {
    forall p: nat :: In(p, c) ==> p in free
  }

  /** c lies in d. */
  ghost predicate Within(c: Chunk, d: Chunk) {
    forall p: nat :: In(p, c) ==> In(p, d)
  }

  lemma Nested(c: Chunk, d: Chunk, p: nat)
    requires In(p, c) && In(p, d) && c.order <= d.order
    ensures Within(c, d)
  {
    forall q: nat | In(q, c)
      ensures In(q, d)
    {
      ShiftUp(p, q, c.order, d.order);
    }
  }

  /** Every free block lies in a chunk: nothing that could be merged is left apart. */
  lemma {:induction false} Coalesced(cs: set<Chunk>, free: set<nat>, c: Chunk) returns (d: Chunk)
    requires Tiling(cs, free) && FreeBlock(free, c)
    ensures d in cs && c.order <= d.order && Within(c, d)
    decreases c.order
  {
    FirstIn(c);
    if c.order == 0 {
      d :| d in cs && In(First(c), d);
    } else {
      var lo, hi := Chunk(c.order - 1, 2 * c.index), Chunk(c.order - 1, 2 * c.index + 1);
      HalvesAll(c);
      d := Coalesced(cs, free, lo);
      FirstIn(lo);
      FirstIn(hi);
      if d.order < c.order {
        assert d == lo && Buddy(lo) == hi;
        d := Coalesced(cs, free, hi);
        assert In(First(hi), d);
        if d.order >= c.order { Nested(c, d, First(hi)); }
      } else {
        Nested(c, d, First(lo));
      }
    }
  }

  /** A chunk of a tiling is a free block whose parent is not free. */
  lemma Maximal(cs: set<Chunk>, free: set<nat>, c: Chunk)
    requires Tiling(cs, free)
    ensures c in cs <==> FreeBlock(free, c) && !FreeBlock(free, Parent(c))
  {
    FirstIn(c);
    ParentHolds(c);
    if c in cs && FreeBlock(free, Parent(c)) {
      var d := Coalesced(cs, free, Parent(c));
    }
    if FreeBlock(free, c) && c !in cs {
      var d := Coalesced(cs, free, c);
      assert In(First(c), d);
      if d.order > c.order { Nested(Parent(c), d, First(c)); }
    }
  }

  lemma ParentHolds(c: Chunk)
    ensures Within(c, Parent(c))
  {
    forall p: nat | In(p, c)
      ensures In(p, Parent(c))
    {
      ShiftStep(p, c.order);
    }
  }

  /** The free pages alone determine the chunks. */
  lemma Canonical(cs: set<Chunk>, cs': set<Chunk>, free: set<nat>)
    requires Tiling(cs, free) && Tiling(cs', free)
    ensures cs == cs'
  {
    forall c
      ensures c in cs <==> c in cs'
    {
      Maximal(cs, free, c);
      Maximal(cs', free, c);
    }
  }

  // ----- changing a tiling

  lemma RemoveChunk(cs: set<Chunk>, free: set<nat>, c: Chunk)
    requires Tiling(cs, free) && c in cs
    ensures Tiling(cs - {c}, free - Pages(c)) && Pages(c) <= free
  {
    forall p: nat
      ensures p in free - Pages(c) <==> Covered(cs - {c}, p)
    {
      if p in free && !In(p, c) {
        var d :| d in cs && In(p, d);
        assert d in cs - {c};
      }
    }
    assert forall p: nat :: In(p, c) ==> Covered(cs, p);
  }

  lemma AddChunk(cs: set<Chunk>, free: set<nat>, c: Chunk)
    requires Tiling(cs, free) && Pages(c) !! free && Buddy(c) !in cs
    ensures Tiling(cs + {c}, free + Pages(c)) && c !in cs
  {
    hide Shift, First;
    FirstIn(c);
    assert forall p: nat :: In(p, c) ==> p in Pages(c) && p !in free && !Covered(cs, p);
    assert !Covered(cs, First(c));
    AddCovers(cs, free, c);
    AddDisjoint(cs, c);
  }

  lemma AddCovers(cs: set<Chunk>, free: set<nat>, c: Chunk)
    requires forall p: nat :: p in free <==> Covered(cs, p)
    ensures forall p: nat :: p in free + Pages(c) <==> Covered(cs + {c}, p)
  {
    forall p: nat
      ensures p in free + Pages(c) <==> Covered(cs + {c}, p)
    {
      if p in free {
        var d :| d in cs && In(p, d);
        assert d in cs + {c};
      }
      if In(p, c) { assert c in cs + {c}; }
    }
  }

  lemma AddDisjoint(cs: set<Chunk>, c: Chunk)
    requires Disjoint(cs) && forall p: nat :: In(p, c) ==> !Covered(cs, p)
    ensures Disjoint(cs + {c})
  {
  }

  /** The test that free_pages makes at the first page of the buddy of a block h. */
  lemma BuddyProbe(cs: set<Chunk>, free: set<nat>, h: Chunk) returns (c: Chunk)
    requires Tiling(cs, free - Pages(h)) && First(Buddy(h)) in free
    ensures c in cs && First(c) == First(Buddy(h)) && (c.order == h.order <==> Buddy(h) in cs)
    ensures c.order == h.order ==> c == Buddy(h)
  {
    var b := Buddy(h);
    FirstIn(b);
    FirstIn(h);
    assert First(b) in free - Pages(h);
    assert First(h) in Pages(h);
    assert !Covered(cs, First(h));
    c :| c in cs && In(First(b), c);
    if c.order > h.order {
      ShiftStep(First(b), h.order);
      ShiftStep(First(h), h.order);
      ShiftUp(First(b), First(h), h.order + 1, c.order);
    }
    FirstAligned(b, c.order);
    if c.order == h.order { SameFirst(c, b); }
  }
}
