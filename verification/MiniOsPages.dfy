/**
  The binary buddy page allocator of Mini-OS, in page numbers.
 */
module MiniOsPages {
  import opened Arith
  import opened MiniOsBitmap
  import opened BuddyChunks
  import opened BuddyLists
  import opened BuddyState

  const BITMAP_PAGE_WORDS: nat := 512  // words of the bitmap in one page

  /** Pages that the bitmap for pages below max takes: its size in bytes, rounded up to pages. */
  function BitmapPages(max: nat): nat {
    (max / 8 + 4095) / 4096
  }

  /** The bitmap has a bit for page max itself except when its size is a whole number of pages. */
  lemma BitmapCovers(max: nat)
    ensures max / WORD_BITS < BitmapPages(max) * BITMAP_PAGE_WORDS <==> max / 8 % 4096 != 0
  {
    var q, r := max / 8 / 4096, max / 8 % 4096;
    assert max / WORD_BITS == 512 * q + r / 8;
    assert BitmapPages(max) == if r == 0 then q else q + 1;
  }

  /** With 128 MiB of memory, that is 32768 pages, the bitmap has no bit for page 32768. */
  lemma BitmapShort()
    ensures !(32768 / WORD_BITS < BitmapPages(32768) * BITMAP_PAGE_WORDS)
  {
    BitmapCovers(32768);
  }

  /** Element i is v, if there is one. */
  function Put<T>(xs: seq<T>, i: nat, v: T): seq<T> {
    if i < |xs| then xs[i := v] else xs
  }

  class PageAllocator {
    const minPfn: nat
    const maxPfn: nat
    const bitmap: Bitmap
    var freeHead: seq<Ref>
    var tailPprev: seq<Slot>
    var next: seq<Ref>      // the header fields of every page
    var pprev: seq<Slot>
    var level: seq<nat>
    ghost var lists: Lists
    ghost var chunks: set<Chunk>
    ghost var free: set<nat>

    ghost function Mem(): Memory
      reads this
    {
      Memory(Links(freeHead, tailPprev, next, pprev), level)
    }

    /** A page is marked allocated exactly when it is not free. */
    ghost predicate BitmapAgrees()
      reads this`free, bitmap.words
    {
      && bitmap.Valid() && bitmap.Has(maxPfn)
      && forall p: nat :: bitmap.Has(p) ==> (bitmap.Allocated(p) <==> p !in free)
    }

    ghost predicate InRangeOf(s: set<nat>) {
      forall p :: p in s ==> minPfn <= p < maxPfn
    }

    ghost predicate Valid()
      reads this, bitmap.words
    {
      && maxPfn < Pow2(FREELIST_SIZE)
      && InRangeOf(free)
      && BitmapAgrees()
      && Shape(Mem(), maxPfn, lists, chunks, free)
    }

    // ----- init_page_allocator

    /** Frees the pages of [min, max) after the bitmap, whatever their memory held. */
    constructor (min: nat, max: nat, mem: Memory)
      requires max < Pow2(FREELIST_SIZE) && min + BitmapPages(max) <= max && max / 8 % 4096 != 0
      requires InMemory(mem, max)
      ensures Valid() && fresh(bitmap.words)
      ensures free == Interval(min + BitmapPages(max), max)
    {
      hide Pow2, Shape, Interval;
      bitmap := new Bitmap(BitmapPages(max) * BITMAP_PAGE_WORDS);
      minPfn, maxPfn := min + BitmapPages(max), max;
      freeHead := EmptyHeads();
      tailPprev := EmptyTails();
      next, pprev, level := mem.links.next, mem.links.pprev, mem.level;
      lists, chunks := EmptyLists(), {};
      free := Interval(min + BitmapPages(max), max);
      new;
      EmptyShape(Mem(), max);
      BitmapCovers(max);
      bitmap.MapFree(minPfn, max - minPfn);
      BuildLists();
    }

    /** Cuts the range into the largest aligned chunks, from its low end up. */
    method BuildLists()
      requires minPfn <= maxPfn < Pow2(FREELIST_SIZE)
      requires Shape(Mem(), maxPfn, lists, chunks, {}) && chunks == {}
      modifies this`freeHead, this`tailPprev, this`next, this`pprev, this`level, this`lists, this`chunks
      ensures Shape(Mem(), maxPfn, lists, chunks, Interval(minPfn, maxPfn))
    {
      hide Shape, Pow2, First, Pages, Interval, CannotGrow, Shift;
      var min, range := minPfn, maxPfn - minPfn;
      NoChunks(minPfn, maxPfn);
      while range != 0
        invariant minPfn <= min <= maxPfn && range == maxPfn - min
        invariant Shape(Mem(), maxPfn, lists, chunks, Interval(minPfn, min))
        invariant CannotGrow(chunks, maxPfn)
      {
        var i := LargestOrder(min, range);
        ghost var c := ChunkAt(min, i);
        NextChunk(Mem(), lists, chunks, minPfn, min, maxPfn, c);
        GiveStep(Mem(), maxPfn, lists, chunks, Interval(minPfn, min), c);
        lists, chunks := Pushed(lists, i, min), chunks + {c};
        LinkChunk(min, i);
        min, range := min + Pow2(i), range - Pow2(i);
      }
    }

    // ----- stores through the pointers

    method SetBack(r: Ref, s: Slot)
      requires HasRef(Mem().links, r)
      modifies this`pprev, this`tailPprev
      ensures Mem() == old(Mem()).(links := StoreBack(old(Mem()).links, r, s))
    {
      match r
      case Page(p) => pprev := pprev[p := s];
      case Tail(o) => tailPprev := tailPprev[o := s];
    }

    method SetSlot(s: Slot, r: Ref)
      requires HasSlot(Mem().links, s)
      modifies this`freeHead, this`next
      ensures Mem() == old(Mem()).(links := Store(old(Mem()).links, s, r))
    {
      match s
      case Head(o) => freeHead := freeHead[o := r];
      case NextOf(p) => next := next[p := r];
    }

    /** Makes page ch a free chunk of order i, at the front of its list. */
    method LinkChunk(ch: nat, i: nat)
      requires i < |freeHead| && ch < |next| && ch < |pprev| && ch < |level| && HasRef(Mem().links, freeHead[i])
      modifies this`freeHead, this`tailPprev, this`next, this`pprev, this`level
      ensures Mem() == LinkedFront(old(Mem()), ch, i)
    {
      level := level[ch := i];
      next := next[ch := freeHead[i]];
      pprev := pprev[ch := Head(i)];
      SetBack(next[ch], NextOf(ch));
      freeHead := freeHead[i := Page(ch)];
    }

    // ----- alloc_pages

    /** The smallest order from the given one on whose list is not empty. */
    method FindOrder(order: nat) returns (i: nat)
      requires Valid() && order <= FREELIST_SIZE
      ensures order <= i <= FREELIST_SIZE
      ensures forall c :: c in chunks && order <= c.order ==> i <= c.order
      ensures i < FREELIST_SIZE ==> i < |freeHead| && freeHead[i].Page? && ChunkAt(freeHead[i].p, i) in chunks
      ensures i < FREELIST_SIZE ==> First(ChunkAt(freeHead[i].p, i)) == freeHead[i].p < |pprev|
      ensures i < FREELIST_SIZE ==> pprev[freeHead[i].p] == Head(i)
    {
      hide Tiling, Distinct, Pow2, BitmapAgrees;
      i := order;
      while i < FREELIST_SIZE
        invariant order <= i <= FREELIST_SIZE
        invariant forall c :: c in chunks && order <= c.order ==> i <= c.order
      {
        assert LinkedAt(Mem().links, lists[i], i, 0);
        if !freeHead[i].Tail? {
          assert Listed(lists, i, freeHead[i].p);
          return;
        }
        assert lists[i] == [];
        forall c | c in chunks && order <= c.order
          ensures i < c.order
        {
          ChunkListed(lists, chunks, c);
        }
        i := i + 1;
      }
    }

    /** Takes an aligned run of 2^order free pages; there is none exactly when it fails. */
    method AllocPages(order: nat) returns (ok: bool, page: nat)
      requires Valid() && order <= FREELIST_SIZE
      modifies this, bitmap.words
      ensures Valid()
      ensures ok <==> exists c: Chunk :: c.order == order && FreeBlock(old(free), c)
      ensures ok ==> First(ChunkAt(page, order)) == page && Pages(ChunkAt(page, order)) <= old(free)
      ensures free == if ok then old(free) - Pages(ChunkAt(page, order)) else old(free)
      ensures ok ==> forall p: nat :: p in old(free) && p !in free <==> page <= p < page + Pow2(order)
      ensures !ok ==> chunks == old(chunks)
    {
      hide Shape, Pow2, First, BitmapAgrees;
      var i := FindOrder(order);
      if i == FREELIST_SIZE {
        NoBlock(Mem(), maxPfn, lists, chunks, free, order);
        return false, 0;
      }
      page := freeHead[i].p;
      ghost var h := ChunkAt(page, i);
      TakeFront(i, page);
      while i != order
        invariant order <= i < FREELIST_SIZE && h == Chunk(i, h.index) && page == First(h)
        invariant Pages(h) <= free && free == old(free)
        invariant Shape(Mem(), maxPfn, lists, chunks, free - Pages(h))
        invariant unchanged(bitmap.words)
      {
        i := i - 1;
        h := SplitOff(page, i, h);
      }
      FirstIn(h);
      MarkAllocated(h, page, order);
      PagesAre(ChunkAt(page, order));
      ok := true;
      assert FreeBlock(old(free), h);
    }

    /** Unlinks the chunk at the front of list i. */
    method TakeFront(i: nat, ch: nat)
      requires Shape(Mem(), maxPfn, lists, chunks, free) && ChunkAt(ch, i) in chunks && First(ChunkAt(ch, i)) == ch
      requires i < |freeHead| && freeHead[i] == Page(ch) && ch < |pprev| && pprev[ch] == Head(i)
      modifies this`freeHead, this`tailPprev, this`next, this`pprev, this`lists, this`chunks
      ensures Pages(ChunkAt(ch, i)) <= free
      ensures Shape(Mem(), maxPfn, lists, chunks, free - Pages(ChunkAt(ch, i)))
    {
      hide Shape, First;
      ghost var was := Mem();
      ghost var c := ChunkAt(ch, i);
      lists := TakeStep(Mem(), maxPfn, lists, chunks, free, c);
      chunks := chunks - {c};
      freeHead := freeHead[i := next[ch]];
      SetBack(next[ch], pprev[ch]);
      assert Mem() == Unlinked(was, ch);
    }

    /** Splits block h in two and puts its upper half on the list of order i. */
    method SplitOff(page: nat, i: nat, ghost h: Chunk) returns (ghost lo: Chunk)
      requires Shape(Mem(), maxPfn, lists, chunks, free - Pages(h)) && Pages(h) <= free && InRangeOf(free)
      requires h == Chunk(i + 1, h.index) && page == First(h) && i < FREELIST_SIZE
      modifies this`freeHead, this`tailPprev, this`next, this`pprev, this`level, this`lists, this`chunks
      ensures lo == Chunk(i, 2 * h.index) && page == First(lo) && Pages(lo) <= free
      ensures Shape(Mem(), maxPfn, lists, chunks, free - Pages(lo))
    {
      hide Shape, First, Pages, Pow2;
      Split(h);
      ghost var hi := Chunk(i, 2 * h.index + 1);
      lo := Chunk(i, 2 * h.index);
      SpareFits(Mem(), maxPfn, lists, chunks, free, h);
      GiveStep(Mem(), maxPfn, lists, chunks, free - Pages(h), hi);
      assert free - Pages(h) + Pages(hi) == free - Pages(lo);
      var spare := page + Pow2(i);
      lists, chunks := Pushed(lists, i, spare), chunks + {hi};
      LinkChunk(spare, i);
    }

    // ----- free_pages

    /** The test for merging block h with its buddy, which starts at page toMerge. */
    method CanMerge(toMerge: nat, order: nat, ghost h: Chunk) returns (merge: bool)
      requires BitmapAgrees() && InRangeOf(free) && Shape(Mem(), maxPfn, lists, chunks, free - Pages(h))
      requires order == h.order && toMerge == First(Buddy(h)) <= maxPfn
      ensures merge <==> Buddy(h) in chunks
    {
      hide Linked, Distinct, ListsAre, Pow2, First, Pages, Tiling;
      merge := false;
      NotAChunk(chunks, free - Pages(h), Buddy(h));
      if !bitmap.Allocated(toMerge) {
        ghost var c := BuddyProbe(chunks, free, h);
        merge := LevelOf(toMerge, c) == order;
      }
    }

    /** Reads a level field; only the header of a free chunk has a meaningful one. */
    function LevelOf(p: nat, ghost c: Chunk): nat
      requires Levels(level, chunks) && c in chunks && First(c) == p
      reads this
    {
      level[p]
    }

    /** Unlinks a free chunk from the list it is on. */
    method Unlink(ch: nat, ghost c: Chunk, ghost tiled: set<nat>)
      requires Shape(Mem(), maxPfn, lists, chunks, tiled) && c in chunks && ch == First(c)
      modifies this`freeHead, this`tailPprev, this`next, this`pprev, this`lists, this`chunks
      ensures Shape(Mem(), maxPfn, lists, chunks, tiled - Pages(c)) && chunks == old(chunks) - {c}
    {
      hide Shape, First;
      ghost var was := Mem();
      lists := TakeStep(Mem(), maxPfn, lists, chunks, tiled, c);
      chunks := chunks - {c};
      var r := next[ch];
      SetSlot(pprev[ch], r);
      SetBack(r, pprev[ch]);
      assert Mem() == Unlinked(was, ch);
    }

    /** Gives back an aligned block of allocated pages, merging it with its buddies as far as they are free. */
    method FreePages(page: nat, order: nat)
      requires Valid() && First(ChunkAt(page, order)) == page
      requires InRangeOf(Pages(ChunkAt(page, order))) && Pages(ChunkAt(page, order)) !! free
      modifies this, bitmap.words
      ensures Valid()
      ensures free == old(free) + Pages(ChunkAt(page, order))
      ensures forall p: nat :: p in free && p !in old(free) <==> page <= p < page + Pow2(order)
    {
      hide Shape, Pow2, First, Pages, BitmapAgrees;
      ghost var h := ChunkAt(page, order);
      MarkFree(h, page, order);
      PagesAre(h);
      assert free - Pages(h) == old(free);
      var freed, o := page, order;
      BlockFits(h, free, maxPfn);
      while o < FREELIST_SIZE
        invariant o < FREELIST_SIZE && h == Chunk(o, h.index) && freed == First(h)
        invariant Pages(h) <= free && InRangeOf(free) && BitmapAgrees()
        invariant free == old(free) + Pages(ChunkAt(page, order))
        invariant Shape(Mem(), maxPfn, lists, chunks, free - Pages(h))
        decreases FREELIST_SIZE - o
      {
        var mask := Pow2(o);
        BuddyFacts(h, free, maxPfn);
        var toMerge := if Shift(freed, o) % 2 == 1 then freed - mask else freed + mask;
        var merge := CanMerge(toMerge, o, h);
        if !merge { break; }
        MergedPages(chunks, free, h, Mem(), maxPfn, lists);
        if Shift(freed, o) % 2 == 1 { freed := toMerge; }
        Unlink(toMerge, Buddy(h), free - Pages(h));
        h, o := Parent(h), o + 1;
        BlockFits(h, free, maxPfn);
      }
      BlockFits(h, free, maxPfn);
      GiveStep(Mem(), maxPfn, lists, chunks, free - Pages(h), h);
      assert free - Pages(h) + Pages(h) == free;
      lists, chunks := Pushed(lists, o, freed), chunks + {h};
      LinkChunk(freed, o);
    }

    /** The owner of an allocated page may write anything into it. */
    method WritePage(p: nat, r: Ref, s: Slot, l: nat)
      requires Valid() && p < maxPfn && p !in free
      modifies this`next, this`pprev, this`level
      ensures Valid() && next == Put(old(next), p, r) && pprev == Put(old(pprev), p, s)
      ensures level == Put(old(level), p, l)
    {
      hide Shape, Pow2;
      ForeignStore(Mem(), maxPfn, lists, chunks, free, p, r, s, l);
      next, pprev, level := next[p := r], pprev[p := s], level[p := l];
    }

    /** Allocating a block and freeing it brings back the very same chunks. */
    method AllocThenFree(order: nat) returns (ok: bool, page: nat)
      requires Valid() && order <= FREELIST_SIZE
      modifies this, bitmap.words
      ensures ok <==> exists c: Chunk :: c.order == order && FreeBlock(old(free), c)
      ensures ok ==> First(ChunkAt(page, order)) == page && Pages(ChunkAt(page, order)) <= old(free)
      ensures Valid() && free == old(free) && chunks == old(chunks)
    {
      hide Tiling, Linked, Distinct, ListsAre, Levels, Pow2, First, BitmapAgrees;
      ok, page := AllocPages(order);
      if ok {
        FreePages(page, order);
        assert free == old(free);
        Canonical(chunks, old(chunks), free);
      }
    }

    /** Marks the pages of a block as free. */
    method MarkFree(ghost h: Chunk, page: nat, order: nat)
      requires BitmapAgrees() && h == Chunk(order, h.index) && page == First(h) && InRangeOf(Pages(h))
      modifies this`free, bitmap.words
      ensures free == old(free) + Pages(h) && BitmapAgrees()
    {
      hide Pow2, First, Pages;
      PagesAre(h);
      assert page + Pow2(order) - 1 in Pages(h);
      bitmap.MapFree(page, Pow2(order));
      free := free + Pages(h);
    }

    /** Marks the pages of a block as allocated. */
    method MarkAllocated(ghost h: Chunk, page: nat, order: nat)
      requires BitmapAgrees() && h == Chunk(order, h.index) && page == First(h)
      requires Pages(h) <= free && InRangeOf(free)
      modifies this`free, bitmap.words
      ensures free == old(free) - Pages(h) && BitmapAgrees()
    {
      hide Pow2, First, Pages;
      PagesAre(h);
      assert page + Pow2(order) - 1 in Pages(h);
      bitmap.MapAlloc(page, Pow2(order));
      free := free - Pages(h);
    }
  }

  /** When no chunk is large enough, no aligned block of free pages is. */
  lemma NoBlock(m: Memory, n: nat, lists: Lists, chunks: set<Chunk>, free: set<nat>, order: nat)
    requires Shape(m, n, lists, chunks, free)
    requires forall c :: c in chunks && order <= c.order ==> FREELIST_SIZE <= c.order
    ensures !exists c: Chunk :: c.order == order && FreeBlock(free, c)
  {
    hide Linked, Distinct, ListsAre, FreeBlock, Tiling;
    if c: Chunk :| c.order == order && FreeBlock(free, c) {
      var d := Coalesced(chunks, free, c);
    }
  }

  /** The upper half of a block that is being split can be linked in. */
  lemma SpareFits(m: Memory, n: nat, lists: Lists, chunks: set<Chunk>, free: set<nat>, h: Chunk)
    requires Shape(m, n, lists, chunks, free - Pages(h)) && h.order > 0 && Pages(h) <= free
    requires forall p :: p in free ==> p < n
    ensures var lo, hi := Chunk(h.order - 1, 2 * h.index), Chunk(h.order - 1, 2 * h.index + 1);
            First(hi) < n && Pages(hi) !! free - Pages(h) && lo !in chunks
  {
    hide Linked, Distinct, ListsAre, Levels;
    var lo, hi := Chunk(h.order - 1, 2 * h.index), Chunk(h.order - 1, 2 * h.index + 1);
    Split(h);
    FirstIn(hi);
    FirstIn(lo);
    assert First(hi) in Pages(hi) && First(lo) in Pages(lo);
    assert !Covered(chunks, First(lo));
  }

  // ----- freeing

  /** A block of free pages lies in memory and has an order with a list. */
  lemma BlockFits(h: Chunk, free: set<nat>, n: nat)
    requires Pages(h) <= free && n < Pow2(FREELIST_SIZE) && forall p :: p in free ==> p < n
    ensures First(h) + Pow2(h.order) <= n && h.order < FREELIST_SIZE && First(h) < n
  {
    hide Pow2, First, Pages;
    PagesAre(h);
    assert First(h) + Pow2(h.order) - 1 in Pages(h);
    OrderFits(h, n);
  }

  /** Where the buddy of a block starts. */
  lemma BuddyFirst(h: Chunk)
    ensures h.index % 2 == 1 ==> First(Buddy(h)) == First(h) - Pow2(h.order) == First(Parent(h))
    ensures h.index % 2 == 0 ==> First(Buddy(h)) == First(h) + Pow2(h.order) && First(Parent(h)) == First(h)
  {
    hide First, Pow2;
    SplitFirst(Parent(h));
    assert h == Chunk(h.order, 2 * (h.index / 2) + h.index % 2);
  }

  /** The buddy of a block of free pages may start at the first page after memory, but not beyond. */
  lemma BuddyFacts(h: Chunk, free: set<nat>, n: nat)
    requires Pages(h) <= free && n < Pow2(FREELIST_SIZE) && forall p :: p in free ==> p < n
    ensures h.index == Shift(First(h), h.order) && First(Buddy(h)) <= n
    ensures h.index % 2 == 1 ==> First(Buddy(h)) == First(h) - Pow2(h.order) == First(Parent(h))
    ensures h.index % 2 == 0 ==> First(Buddy(h)) == First(h) + Pow2(h.order) && First(Parent(h)) == First(h)
  {
    hide First, Pow2, Pages;
    BlockFits(h, free, n);
    FirstIn(h);
    BuddyFirst(h);
  }

  lemma MergedPages(chunks: set<Chunk>, free: set<nat>, h: Chunk, m: Memory, n: nat, lists: Lists)
    requires Shape(m, n, lists, chunks, free - Pages(h)) && Pages(h) <= free && Buddy(h) in chunks
    ensures Pages(Parent(h)) <= free && free - Pages(h) - Pages(Buddy(h)) == free - Pages(Parent(h))
  {
    hide Pow2, First, Pages, Linked, Distinct, ListsAre, Levels, Tiling;
    RemoveChunk(chunks, free - Pages(h), Buddy(h));
    Split(Parent(h));
    assert h == Chunk(h.order, 2 * (h.index / 2) + h.index % 2);
  }

  /** A block whose first page is not free is no chunk. */
  lemma NotAChunk(chunks: set<Chunk>, free: set<nat>, b: Chunk)
    requires Tiling(chunks, free)
    ensures First(b) !in free ==> b !in chunks
  {
    FirstIn(b);
    assert First(b) in free || !Covered(chunks, First(b));
  }

  // ----- building the lists

  /** A chunk that is the lower of its pair is too close to the end for a buddy. */
  ghost predicate CannotGrow(chunks: set<Chunk>, max: nat) {
    forall c :: c in chunks && c.index % 2 == 0 ==> max < First(c) + 2 * Pow2(c.order)
  }

  lemma AlignedZero(p: nat)
    ensures First(ChunkAt(p, 0)) == p && Pow2(0) == 1
  {
  }

  lemma AlignedUp(p: nat, i: nat)
    requires First(ChunkAt(p, i)) == p && Shift(p, i) % 2 == 0
    ensures First(ChunkAt(p, i + 1)) == p && Pow2(i + 1) == 2 * Pow2(i)
  {
    ShiftStep(p, i);
    DoubleFirst(i, Shift(p, i) / 2);
  }

  /** The largest order that the alignment of min and the length of the range allow. */
  method LargestOrder(min: nat, range: nat) returns (i: nat)
    requires range > 0
    ensures First(ChunkAt(min, i)) == min && Pow2(i) <= range
    ensures Shift(min, i) % 2 == 1 || range < Pow2(i + 1)
  {
    hide Pow2, First;
    i := 0;
    AlignedZero(min);
    while Pow2(i + 1) <= range
      invariant First(ChunkAt(min, i)) == min && Pow2(i) <= range
      decreases range - Pow2(i)
    {
      if Shift(min, i) % 2 == 1 { break; }
      AlignedUp(min, i);
      i := i + 1;
    }
  }

  lemma NoChunks(min: nat, max: nat)
    ensures CannotGrow({}, max) && Interval(min, min) == {}
  {
  }

  /** The chunk cut off the low end of what is left of the range. */
  lemma NextChunk(m: Memory, lists: Lists, chunks: set<Chunk>, start: nat, min: nat, max: nat, c: Chunk)
    requires Shape(m, max, lists, chunks, Interval(start, min)) && CannotGrow(chunks, max) && start <= min
    requires First(c) == min && min + Pow2(c.order) <= max < Pow2(FREELIST_SIZE)
    requires c.index % 2 == 1 || max < min + Pow2(c.order + 1)
    ensures c.order < FREELIST_SIZE && Pages(c) !! Interval(start, min) && Buddy(c) !in chunks
    ensures Interval(start, min) + Pages(c) == Interval(start, min + Pow2(c.order))
    ensures CannotGrow(chunks + {c}, max)
  {
    hide Pow2, First, Pages, Linked, Distinct, ListsAre, Levels, Interval, CannotGrow;
    OrderFits(c, max);
    PagesAre(c);
    assert Interval(start, min) + Pages(c) == Interval(start, min + Pow2(c.order));
    GrownChunks(chunks, c, max);
    NoBuddyYet(chunks, Interval(start, min), c, max);
  }

  lemma GrownChunks(chunks: set<Chunk>, c: Chunk, max: nat)
    requires CannotGrow(chunks, max) && (c.index % 2 == 1 || max < First(c) + Pow2(c.order + 1))
    ensures CannotGrow(chunks + {c}, max)
  {
    assert Pow2(c.order + 1) == 2 * Pow2(c.order);
  }

  lemma NoBuddyYet(chunks: set<Chunk>, free: set<nat>, c: Chunk, max: nat)
    requires Tiling(chunks, free) && CannotGrow(chunks, max) && First(c) + Pow2(c.order) <= max
    requires forall p :: p in free ==> p < First(c)
    ensures Buddy(c) !in chunks
  {
    hide Pow2, First, Pages, Tiling;
    BuddyFirst(c);
    NotAChunk(chunks, free, Buddy(c));
  }

  // ----- any run of requests

  datatype Request = Alloc(order: nat) | Free(k: nat) | Write(k: nat, p: nat, r: Ref, s: Slot, l: nat)

  /** The pages of all are each free or in exactly one of the blocks held. */
  ghost predicate Accounts(all: set<nat>, free: set<nat>, held: seq<Chunk>) {
    && (forall p :: p in all <==> p in free || HeldBy(held, p))
    && (forall i :: 0 <= i < |held| ==> Pages(held[i]) !! free)
    && (forall i, j :: 0 <= i < j < |held| ==> Pages(held[i]) !! Pages(held[j]))
  }

  ghost predicate HeldBy(held: seq<Chunk>, p: nat) {
    exists i :: 0 <= i < |held| && p in Pages(held[i])
  }

  /** What the holder of blocks may ask for. */
  predicate Allowed(q: Request, held: seq<Chunk>) {
    match q
    case Alloc(order) => order <= FREELIST_SIZE
    case Free(k) => k < |held|
    case Write(k, p, _, _, _) => k < |held| && In(p, held[k])
  }

  lemma AccountsTake(all: set<nat>, free: set<nat>, held: seq<Chunk>, c: Chunk)
    requires Accounts(all, free, held) && Pages(c) <= free
    ensures Accounts(all, free - Pages(c), held + [c])
  {
    hide Pages;
    forall p
      ensures p in all <==> p in free - Pages(c) || HeldBy(held + [c], p)
    {
      if HeldBy(held, p) {
        var i :| 0 <= i < |held| && p in Pages(held[i]);
        assert (held + [c])[i] == held[i];
      }
      if p in Pages(c) { assert (held + [c])[|held|] == c; }
    }
  }

  lemma AccountsGive(all: set<nat>, free: set<nat>, held: seq<Chunk>, k: nat)
    requires Accounts(all, free, held) && k < |held|
    ensures Pages(held[k]) !! free && Pages(held[k]) <= all
    ensures Accounts(all, free + Pages(held[k]), held[..k] + held[k + 1..])
  {
    hide Pages;
    var c, held' := held[k], held[..k] + held[k + 1..];
    forall p
      ensures p in Pages(c) ==> p in all
      ensures p in all <==> p in free + Pages(c) || HeldBy(held', p)
    {
      if p in Pages(c) { assert HeldBy(held, p); }
      if HeldBy(held, p) {
        var i :| 0 <= i < |held| && p in Pages(held[i]);
        assert i < k ==> held'[i] == held[i];
        assert i > k ==> held'[i - 1] == held[i];
      }
      if HeldBy(held', p) {
        var i :| 0 <= i < |held'| && p in Pages(held'[i]);
        assert held'[i] == if i < k then held[i] else held[i + 1];
      }
    }
  }

  /** The free pages and the blocks handed out, in order. */
  datatype State = State(free: set<nat>, held: seq<Chunk>)

  /**
    What a request does: a block of free pages is handed out whenever there is one of that size; a
    block given back makes its pages free; writing changes neither.
   */
  ghost predicate Serves(s: State, q: Request, s': State) {
    if !Allowed(q, s.held) then s' == s
    else match q
      case Alloc(order) =>
        if exists c: Chunk :: c.order == order && FreeBlock(s.free, c)
        then
          && |s'.held| == |s.held| + 1
          && var c := s'.held[|s.held|];
             c.order == order && FreeBlock(s.free, c) && s' == State(s.free - Pages(c), s.held + [c])
        else s' == s
      case Free(k) => s' == State(s.free + Pages(s.held[k]), s.held[..k] + s.held[k + 1..])
      case Write(_, _, _, _, _) => s' == s
  }

  /** Serves one request of the holder of some blocks. */
  method Serve(a: PageAllocator, q: Request, held: seq<Chunk>, ghost all: set<nat>) returns (held': seq<Chunk>)
    requires a.Valid() && Accounts(all, a.free, held) && a.InRangeOf(all) && Allowed(q, held)
    modifies a, a.bitmap.words
    ensures a.Valid() && Accounts(all, a.free, held') && Serves(State(old(a.free), held), q, State(a.free, held'))
    ensures q.Write? ==> a.next == Put(old(a.next), q.p, q.r) && a.pprev == Put(old(a.pprev), q.p, q.s)
    ensures q.Write? ==> a.level == Put(old(a.level), q.p, q.l)
  {
    hide Accounts, Shape, Pow2, First, Pages;
    held' := held;
    match q
    case Alloc(order) =>
      ghost var before := a.free;
      var ok, page := a.AllocPages(order);
      if ok {
        held' := held + [ChunkAt(page, order)];
        AccountsTake(all, before, held, ChunkAt(page, order));
      }
    case Free(k) =>
      AccountsGive(all, a.free, held, k);
      FirstIn(held[k]);
      a.FreePages(First(held[k]), held[k].order);
      held' := held[..k] + held[k + 1..];
    case Write(k, p, r, s, l) =>
      AccountsGive(all, a.free, held, k);
      assert p in Pages(held[k]);
      a.WritePage(p, r, s, l);
  }

  /** In any run of requests no page is handed out twice and none is lost. */
  method Run(a: PageAllocator, requests: seq<Request>) returns (held: seq<Chunk>, ghost states: seq<State>)
    requires a.Valid()
    modifies a, a.bitmap.words
    ensures a.Valid() && Accounts(old(a.free), a.free, held)
    ensures |states| == |requests| + 1 && states[0] == State(old(a.free), [])
    ensures states[|requests|] == State(a.free, held)
    ensures forall n :: 0 <= n < |requests| ==> Serves(states[n], requests[n], states[n + 1])
  {
    hide Serves;
    held := [];
    states := [State(a.free, held)];
    for n := 0 to |requests|
      invariant a.Valid() && Accounts(old(a.free), a.free, held)
      invariant |states| == n + 1 && states[0] == State(old(a.free), []) && states[n] == State(a.free, held)
      invariant forall i :: 0 <= i < n ==> Serves(states[i], requests[i], states[i + 1])
    {
      NotServed(states[n], requests[n]);
      if Allowed(requests[n], held) { held := Serve(a, requests[n], held, old(a.free)); }
      states := states + [State(a.free, held)];
    }
  }

  lemma NotServed(s: State, q: Request)
    ensures !Allowed(q, s.held) ==> Serves(s, q, s)
  {
  }
}
