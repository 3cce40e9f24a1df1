/**
  The dynamic disk driver for VHD images: a block allocation table (BAT) maps blocks of guest
  sectors to places in the file, and blocks are appended over the old footer when first written.
  File and guest are arrays of sectors.
 */
module VhdDisk {
  import opened Arith

  const BAT_SLOTS: nat := 128  // BAT entries in a sector

  datatype Slot = Unused | At(sector: nat)

  /** What a sector of the file holds; Raw(0) is a sector of zeros. */
  datatype Sector = Raw(value: nat) | Bits | Footer | Bat(slots: seq<Slot>)

  /** Sectors of the bitmap in front of a block of blk sectors. */
  function BitmapSectors(blk: nat): nat { (blk / 8 + 511) / 512 }

  /** The first sector behind the BAT. */
  function BatEnd(bat: nat, entries: nat): nat { bat + (entries + BAT_SLOTS - 1) / BAT_SLOTS }

  /** No sector is wasted: 512 bytes of bits in each sector of a bitmap, 128 entries in each sector of the BAT. */
  lemma SectorsNeeded(blk: nat, bat: nat, entries: nat)
    ensures blk / 8 <= 512 * BitmapSectors(blk) < blk / 8 + 512 && BitmapSectors(4096) == 1
    ensures entries <= 128 * (BatEnd(bat, entries) - bat) < entries + 128
  {
  }

  // ----- writing to the file

  function Zeros(n: nat): (s: seq<Sector>)
    ensures |s| == n && forall i :: 0 <= i < n ==> s[i] == Raw(0)
  {
    seq(n, _ => Raw(0))
  }

  /** Writes one sector; a file that is too short grows by zeros. */
  function Put(file: seq<Sector>, x: nat, v: Sector): (f: seq<Sector>)
    ensures |f| == (if x < |file| then |file| else x + 1) && f[x] == v
    ensures forall i :: 0 <= i < |f| && i != x ==> f[i] == if i < |file| then file[i] else Raw(0)
  {
    if x < |file| then file[x := v] else file + Zeros(x - |file|) + [v]
  }

  /** Writes n sectors of set bits. */
  function PutBits(file: seq<Sector>, x: nat, n: nat): (f: seq<Sector>)
    ensures |f| == if n == 0 || x + n <= |file| then |file| else x + n
    ensures forall i :: 0 <= i < |f| ==> f[i] == if x <= i < x + n then Bits else if i < |file| then file[i] else Raw(0)
  {
    if n == 0 then file else Put(PutBits(file, x, n - 1), x + n - 1, Bits)
  }

  // ----- well-formed images

  /** The BAT in the file is the one in memory. */
  ghost predicate Stored(file: seq<Sector>, bat: nat, pt: seq<Slot>) {
    && BatEnd(bat, |pt|) <= |file|
    && forall i :: 0 <= i < |pt| ==> StoredAt(file, bat, pt[i], i)
  }

  ghost predicate StoredAt(file: seq<Sector>, bat: nat, slot: Slot, i: nat) {
    var x := bat + i / BAT_SLOTS;
    x < |file| && file[x].Bat? && |file[x].slots| == BAT_SLOTS && file[x].slots[i % BAT_SLOTS] == slot
  }

  /** The blocks lie between lo and hi and do not overlap. */
  ghost predicate Placed(pt: seq<Slot>, unit: nat, lo: nat, hi: nat) {
    && (forall i :: 0 <= i < |pt| && pt[i].At? ==> lo <= pt[i].sector && pt[i].sector + unit <= hi)
    && (forall i, j :: 0 <= i < |pt| && 0 <= j < |pt| && i != j && pt[i].At? && pt[j].At? ==>
          pt[i].sector + unit <= pt[j].sector || pt[j].sector + unit <= pt[i].sector)
  }

  /** The data sectors of the blocks hold guest data. */
  ghost predicate HoldsData(file: seq<Sector>, pt: seq<Slot>, bm: nat, blk: nat) {
    forall i, x | 0 <= i < |pt| && pt[i].At? && pt[i].sector + bm <= x < pt[i].sector + bm + blk ::
      x < |file| ==> file[x].Raw?
  }

  datatype Image = Image(file: seq<Sector>, pt: seq<Slot>, bat: nat, blk: pos)

  function Unit(m: Image): nat { BitmapSectors(m.blk) + m.blk }

  /** A dynamic disk whose footer is the last sector, right after the BAT and all blocks. */
  ghost predicate WellFormed(m: Image, free: nat) {
    && BitmapSectors(m.blk) > 0
    && BatEnd(m.bat, |m.pt|) <= free
    && |m.file| == free + 1 && m.file[free] == Footer
    && Stored(m.file, m.bat, m.pt)
    && Placed(m.pt, Unit(m), BatEnd(m.bat, |m.pt|), free)
    && HoldsData(m.file, m.pt, BitmapSectors(m.blk), m.blk)
  }

  /** Sector n of the disk as the guest sees it. */
  function Guest(m: Image, n: nat): nat {
    var i := Div(n, m.blk);
    if i >= |m.pt| || m.pt[i].Unused? then 0
    else
      var x := m.pt[i].sector + BitmapSectors(m.blk) + Mod(n, m.blk);
      if x < |m.file| && m.file[x].Raw? then m.file[x].value else 0
  }

  // ----- steps

  lemma BatBelow(bat: nat, entries: nat, k: nat)
    requires k < entries
    ensures bat + k / BAT_SLOTS < BatEnd(bat, entries)
  {
  }

  /** Only the sectors of the BAT matter to it. */
  lemma StoredStays(file: seq<Sector>, f: seq<Sector>, bat: nat, pt: seq<Slot>)
    requires Stored(file, bat, pt) && BatEnd(bat, |pt|) <= |f|
    requires forall x :: 0 <= x < BatEnd(bat, |pt|) ==> f[x] == file[x]
    ensures Stored(f, bat, pt)
  {
    hide BatEnd;
    forall k | 0 <= k < |pt|
      ensures StoredAt(f, bat, pt[k], k)
    {
      assert StoredAt(file, bat, pt[k], k);
      BatBelow(bat, |pt|, k);
    }
  }

  /** Where guest sector n is, when its block is allocated. */
  function PlaceOf(m: Image, n: nat): nat
    requires Allocated(m, n)
  {
    m.pt[Div(n, m.blk)].sector + BitmapSectors(m.blk) + Mod(n, m.blk)
  }

  predicate Allocated(m: Image, n: nat) { Div(n, m.blk) < |m.pt| && m.pt[Div(n, m.blk)].At? }

  /** The sectors of a block. */
  predicate InBlock(m: Image, i: nat, x: nat)
    requires i < |m.pt| && m.pt[i].At?
  {
    m.pt[i].sector <= x < m.pt[i].sector + Unit(m)
  }

  /** Guest sectors of one block are in that block, after its bitmap, and in no other. */
  lemma InOneBlock(m: Image, free: nat, n: nat, i: nat)
    requires WellFormed(m, free) && Allocated(m, n) && i < |m.pt| && m.pt[i].At?
    ensures BatEnd(m.bat, |m.pt|) <= m.pt[i].sector && m.pt[i].sector + Unit(m) <= free
    ensures PlaceOf(m, n) < free && (InBlock(m, i, PlaceOf(m, n)) <==> i == Div(n, m.blk))
    ensures i == Div(n, m.blk) ==> PlaceOf(m, n) >= m.pt[i].sector + BitmapSectors(m.blk)
    ensures m.file[PlaceOf(m, n)].Raw?
  {
    hide BitmapSectors, BatEnd, Stored;
  }

  /** Changing sectors inside a block leaves the image well formed as long as its data stay data. */
  lemma ChangeInBlock(m: Image, f: seq<Sector>, free: nat, i: nat)
    requires WellFormed(m, free) && i < |m.pt| && m.pt[i].At? && |f| == |m.file|
    requires forall x :: 0 <= x < |f| && !InBlock(m, i, x) ==> f[x] == m.file[x]
    requires forall x :: m.pt[i].sector + BitmapSectors(m.blk) <= x < m.pt[i].sector + Unit(m) && x < |f| ==> f[x].Raw?
    ensures WellFormed(m.(file := f), free)
  {
    hide BitmapSectors, BatEnd, Stored;
    StoredStays(m.file, f, m.bat, m.pt);
  }

  /** Block i is allocated and all bits of its bitmap are set. */
  ghost predicate BitmapSet(m: Image, i: nat) {
    && i < |m.pt| && m.pt[i].At?
    && forall x :: m.pt[i].sector <= x < m.pt[i].sector + BitmapSectors(m.blk) && x < |m.file| ==> m.file[x] == Bits
  }

  /** Bitmaps that were set stay set. */
  ghost predicate BitmapsKept(m: Image, m': Image) {
    forall i :: BitmapSet(m, i) ==> BitmapSet(m', i)
  }

  /** Setting the bits of a block's bitmap. */
  lemma BitmapStep(m: Image, free: nat, i: nat)
    requires WellFormed(m, free) && i < |m.pt| && m.pt[i].At?
    ensures var f := PutBits(m.file, m.pt[i].sector, BitmapSectors(m.blk));
            && WellFormed(m.(file := f), free) && (forall n: nat :: Guest(m.(file := f), n) == Guest(m, n))
            && BitmapSet(m.(file := f), i) && BitmapsKept(m, m.(file := f))
  {
    hide BitmapSectors, BatEnd, Stored;
    var f := PutBits(m.file, m.pt[i].sector, BitmapSectors(m.blk));
    assert m.pt[i].sector + Unit(m) <= free;
    ChangeInBlock(m, f, free, i);
    forall n: nat
      ensures Guest(m.(file := f), n) == Guest(m, n)
    {
      if Allocated(m, n) { InOneBlock(m, free, n, i); }
    }
  }

  /** Writing a guest sector in place changes that sector only. */
  lemma DataStep(m: Image, free: nat, n: nat, v: nat)
    requires WellFormed(m, free) && Allocated(m, n)
    ensures PlaceOf(m, n) < free
    ensures var f := Put(m.file, PlaceOf(m, n), Raw(v));
            && WellFormed(m.(file := f), free) && BitmapsKept(m, m.(file := f))
            && forall k: nat :: Guest(m.(file := f), k) == if k == n then v else Guest(m, k)
  {
    hide BitmapSectors, BatEnd, WellFormed;
    var i := Div(n, m.blk);
    InOneBlock(m, free, n, i);
    LengthIs(m, free);
    var f := Put(m.file, PlaceOf(m, n), Raw(v));
    DataKept(m, free, n, v);
    forall k | BitmapSet(m, k)
      ensures BitmapSet(m.(file := f), k)
    {
      InOneBlock(m, free, n, k);
    }
    forall k: nat
      ensures Guest(m.(file := f), k) == if k == n then v else Guest(m, k)
    {
      if Allocated(m, k) {
        InOneBlock(m, free, k, i);
        if k != n && Div(k, m.blk) == i && Mod(k, m.blk) == Mod(n, m.blk) { DivModUnique(k, n, m.blk); }
      }
    }
  }

  lemma LengthIs(m: Image, free: nat)
    requires WellFormed(m, free)
    ensures |m.file| == free + 1
  {
  }

  lemma DataKept(m: Image, free: nat, n: nat, v: nat)
    requires WellFormed(m, free) && Allocated(m, n)
    ensures WellFormed(m.(file := Put(m.file, PlaceOf(m, n), Raw(v))), free)
  {
    hide BitmapSectors, BatEnd, Stored;
    InOneBlock(m, free, n, Div(n, m.blk));
    ChangeInBlock(m, Put(m.file, PlaceOf(m, n), Raw(v)), free, Div(n, m.blk));
  }

  // ----- allocation

  /** The file after a block for entry i was appended, before the BAT in it is changed. */
  function Grown(m: Image, free: nat): seq<Sector> {
    Put(PutBits(m.file, free, BitmapSectors(m.blk)), free + Unit(m), Footer)
  }

  function BatPut(file: seq<Sector>, bat: nat, i: nat, slot: Slot): seq<Sector>
    requires bat + i / BAT_SLOTS < |file| && file[bat + i / BAT_SLOTS].Bat?
    requires |file[bat + i / BAT_SLOTS].slots| == BAT_SLOTS
  {
    var x := bat + i / BAT_SLOTS;
    file[x := Bat(file[x].slots[i % BAT_SLOTS := slot])]
  }

  lemma HasBat(file: seq<Sector>, bat: nat, slot: Slot, i: nat)
    requires StoredAt(file, bat, slot, i)
    ensures var x := bat + i / BAT_SLOTS; x < |file| && file[x].Bat? && |file[x].slots| == BAT_SLOTS
  {
  }

  lemma BatStep(file: seq<Sector>, bat: nat, pt: seq<Slot>, i: nat, slot: Slot)
    requires Stored(file, bat, pt) && i < |pt|
    ensures StoredAt(file, bat, pt[i], i)
    ensures var f := BatPut(file, bat, i, slot);
            Stored(f, bat, pt[i := slot]) && |f| == |file| &&
            forall x :: BatEnd(bat, |pt|) <= x < |f| ==> f[x] == file[x]
  {
    assert StoredAt(file, bat, pt[i], i);
    BatBelow(bat, |pt|, i);
    var f, pt' := BatPut(file, bat, i, slot), pt[i := slot];
    forall k | 0 <= k < |pt'|
      ensures StoredAt(f, bat, pt'[k], k)
    {
      assert StoredAt(file, bat, pt[k], k);
      assert k / BAT_SLOTS == i / BAT_SLOTS && k % BAT_SLOTS == i % BAT_SLOTS ==> k == i;
    }
  }

  /** The image after a block for entry i was appended over the footer. */
  function Appended(m: Image, free: nat, i: nat): Image
    requires i < |m.pt| && StoredAt(Grown(m, free), m.bat, m.pt[i], i)
  {
    m.(pt := m.pt[i := At(free)], file := BatPut(Grown(m, free), m.bat, i, At(free)))
  }

  lemma GrownStored(m: Image, free: nat, i: nat)
    requires WellFormed(m, free) && i < |m.pt|
    ensures Stored(Grown(m, free), m.bat, m.pt) && StoredAt(Grown(m, free), m.bat, m.pt[i], i)
  {
    hide BitmapSectors, BatEnd, HoldsData, Placed;
    StoredStays(m.file, Grown(m, free), m.bat, m.pt);
  }

  /** What a new block looks like: bits, zeros, and the footer behind it. */
  lemma GrownIs(m: Image, free: nat)
    requires |m.file| == free + 1 && BitmapSectors(m.blk) > 0
    ensures var f := Grown(m, free);
            && |f| == free + Unit(m) + 1 && f[free + Unit(m)] == Footer
            && (forall x :: 0 <= x < free ==> f[x] == m.file[x])
            && (forall x :: free <= x < free + BitmapSectors(m.blk) ==> f[x] == Bits)
            && (forall x :: free + BitmapSectors(m.blk) <= x < free + Unit(m) ==> f[x] == Raw(0))
  {
    hide BitmapSectors;
  }

  lemma AppendedPlaced(pt: seq<Slot>, unit: nat, lo: nat, free: nat, i: nat)
    requires Placed(pt, unit, lo, free) && lo <= free && i < |pt|
    ensures Placed(pt[i := At(free)], unit, lo, free + unit)
  {
  }

  lemma AppendStep(m: Image, free: nat, i: nat)
    requires WellFormed(m, free) && i < |m.pt| && m.pt[i].Unused?
    ensures StoredAt(Grown(m, free), m.bat, m.pt[i], i)
    ensures WellFormed(Appended(m, free, i), free + Unit(m))
    ensures forall n: nat :: Guest(Appended(m, free, i), n) == Guest(m, n)
    ensures BitmapSet(Appended(m, free, i), i) && BitmapsKept(m, Appended(m, free, i))
  {
    hide BitmapSectors, BatEnd, Stored, Placed, HoldsData;
    GrownStored(m, free, i);
    GrownIs(m, free);
    BatStep(Grown(m, free), m.bat, m.pt, i, At(free));
    AppendedPlaced(m.pt, Unit(m), BatEnd(m.bat, |m.pt|), free, i);
    AppendedData(m, free, i);
    forall n: nat
      ensures Guest(Appended(m, free, i), n) == Guest(m, n)
    {
      AppendedGuest(m, free, i, n);
    }
    AppendedBits(m, free, i);
  }

  lemma AppendedBits(m: Image, free: nat, i: nat)
    requires WellFormed(m, free) && i < |m.pt| && m.pt[i].Unused? && StoredAt(Grown(m, free), m.bat, m.pt[i], i)
    ensures BitmapSet(Appended(m, free, i), i) && BitmapsKept(m, Appended(m, free, i))
  {
    hide BitmapSectors, BatEnd, Stored, HoldsData;
    GrownStored(m, free, i);
    GrownIs(m, free);
    BatStep(Grown(m, free), m.bat, m.pt, i, At(free));
  }

  lemma AppendedData(m: Image, free: nat, i: nat)
    requires WellFormed(m, free) && i < |m.pt| && StoredAt(Grown(m, free), m.bat, m.pt[i], i)
    ensures HoldsData(Appended(m, free, i).file, m.pt[i := At(free)], BitmapSectors(m.blk), m.blk)
  {
    hide BitmapSectors, BatEnd, Stored;
    GrownStored(m, free, i);
    GrownIs(m, free);
    BatStep(Grown(m, free), m.bat, m.pt, i, At(free));
  }

  lemma AppendedGuest(m: Image, free: nat, i: nat, n: nat)
    requires WellFormed(m, free) && i < |m.pt| && m.pt[i].Unused? && StoredAt(Grown(m, free), m.bat, m.pt[i], i)
    ensures Guest(Appended(m, free, i), n) == Guest(m, n)
  {
    hide BitmapSectors, BatEnd, Stored, HoldsData;
    GrownStored(m, free, i);
    GrownIs(m, free);
    BatStep(Grown(m, free), m.bat, m.pt, i, At(free));
    if Allocated(m, n) { InOneBlock(m, free, n, Div(n, m.blk)); }
  }

  // ----- which sectors the driver takes

  /** The BAT has an entry for every sector of the disk. */
  ghost predicate BatCovers(total: nat, blk: pos, entries: nat) {
    total > 0 ==> Div(total - 1, blk) < entries
  }

  /** The range check before a block is allocated: it lets the first sector past the disk through. */
  predicate Accepted(n: nat, total: nat) { !(n > total) }

  /** Every sector that passes the check has a BAT entry exactly when the one past the disk has. */
  lemma AcceptedInBat(total: nat, blk: pos, entries: nat)
    ensures (forall n: nat :: Accepted(n, total) ==> Div(n, blk) < entries) <==> Div(total, blk) < entries
  {
    if Div(total, blk) < entries {
      forall n: nat | Accepted(n, total)
        ensures Div(n, blk) < entries
      {
        DivMono(n, total, blk);
      }
    }
    assert Accepted(total, total);
  }

  /** A BAT that covers the disk exactly: the sector past the disk passes the check and has no entry. */
  lemma PastTheBat(blk: pos, entries: pos)
    ensures var total := entries * blk;
            BatCovers(total, blk, entries) && Accepted(total, total) && Div(total, blk) == entries
  {
    DivShift(entries * blk, entries, blk);
    DivOfProduct(entries, blk);
  }

  // ----- the driver

  /** The guest's view with the sectors from n on replaced. */
  ghost predicate Overwritten(was: Image, now: Image, n: nat, data: seq<nat>) {
    forall k: nat :: Guest(now, k) == if n <= k < n + |data| then data[k - n] else Guest(was, k)
  }

  /** The BAT entry i of a file. */
  function ReadSlot(file: seq<Sector>, bat: nat, i: nat): Slot {
    var x := bat + i / BAT_SLOTS;
    if x < |file| && file[x].Bat? && i % BAT_SLOTS < |file[x].slots| then file[x].slots[i % BAT_SLOTS] else Unused
  }

  /** The bitmap at this place of the file is that of a block, and set. */
  ghost predicate LastSet(m: Image, place: nat) {
    exists i :: 0 <= i < |m.pt| && m.pt[i] == At(place) && BitmapSet(m, i)
  }

  lemma LastIs(m: Image, free: nat, i: nat)
    requires WellFormed(m, free) && i < |m.pt| && m.pt[i].At? && LastSet(m, m.pt[i].sector)
    ensures BitmapSet(m, i)
  {
    hide BatEnd, Stored, HoldsData, BitmapSectors;
  }

  lemma SetHere(m: Image, i: nat)
    requires BitmapSet(m, i)
    ensures i < |m.pt| && m.pt[i].At? && LastSet(m, m.pt[i].sector)
  {
  }

  lemma LastKept(m: Image, m': Image, place: nat)
    requires LastSet(m, place) && BitmapsKept(m, m') && |m'.pt| == |m.pt|
    requires forall i :: 0 <= i < |m.pt| && m.pt[i].At? ==> m'.pt[i] == m.pt[i]
    ensures LastSet(m', place)
  {
    var i :| 0 <= i < |m.pt| && m.pt[i] == At(place) && BitmapSet(m, i);
    assert BitmapSet(m', i);
  }

  class Disk {
    const bat: nat
    const blk: pos
    const entries: nat
    const totalSectors: nat
    var file: seq<Sector>
    var pagetable: seq<Slot>
    var freeOffset: nat
    var lastBitmap: int

    ghost function View(): Image
      reads this
    {
      Image(file, pagetable, bat, blk)
    }

    ghost predicate Valid()
      reads this
    {
      && |pagetable| == entries && WellFormed(View(), freeOffset)
      && BatCovers(totalSectors, blk, entries)
      && (lastBitmap >= 0 ==> LastSet(View(), lastBitmap))
    }

    /** vpc_open: reads the BAT and finds the end of the last block. */
    constructor (image: Image, free: nat, total: nat)
      requires WellFormed(image, free) && BatCovers(total, image.blk, |image.pt|)
      requires free == BatEnd(image.bat, |image.pt|) || exists i ::
                 0 <= i < |image.pt| && EndsAt(image.pt[i], Unit(image), free)
      ensures Valid() && View() == image && freeOffset == free && totalSectors == total
    {
      hide BitmapSectors, BatEnd;
      bat, blk, entries, totalSectors := image.bat, image.blk, |image.pt|, total;
      file, lastBitmap := image.file, -1;
      pagetable := seq(|image.pt|, i requires 0 <= i => ReadSlot(image.file, image.bat, i));
      new;
      forall i | 0 <= i < |image.pt|
        ensures pagetable[i] == image.pt[i]
      {
        assert StoredAt(image.file, image.bat, image.pt[i], i);
      }
      assert pagetable == image.pt;
      freeOffset := BatEnd(bat, entries);
      for i := 0 to entries
        invariant View() == image && lastBitmap == -1 && BatEnd(bat, entries) <= freeOffset <= free
        invariant forall k :: 0 <= k < i && image.pt[k].At? ==> image.pt[k].sector + Unit(image) <= freeOffset
      {
        if pagetable[i].At? {
          var next := pagetable[i].sector + BitmapSectors(blk) + blk;
          if next > freeOffset { freeOffset := next; }
        }
      }
    }

    /** Where a guest sector is in the file, if its block is allocated; a write also sets the block's bitmap. */
    method GetSectorOffset(n: nat, write: bool) returns (found: bool, offset: nat)
      requires Valid()
      modifies this`file, this`lastBitmap
      ensures Valid() && found == Allocated(View(), n) && (found ==> offset == PlaceOf(View(), n))
      ensures View().pt == old(View()).pt && forall k: nat :: Guest(View(), k) == Guest(old(View()), k)
      ensures !write ==> file == old(file) && lastBitmap == old(lastBitmap)
      ensures BitmapsKept(old(View()), View()) && (write && found ==> BitmapSet(View(), Div(n, blk)))
    {
      hide WellFormed, BitmapSectors, BatEnd, Guest, Div, Mod, BitmapSet, LastSet;
      var index, within := Div(n, blk), Mod(n, blk);
      if index >= entries || pagetable[index].Unused? { return false, 0; }
      var bitmapOffset := pagetable[index].sector;
      if write && lastBitmap != bitmapOffset {
        BitmapStep(View(), freeOffset, index);
        lastBitmap := bitmapOffset;
        file := PutBits(file, bitmapOffset, BitmapSectors(blk));
        SetHere(View(), index);
      } else if write {
        LastIs(View(), freeOffset, index);
      }
      return true, bitmapOffset + BitmapSectors(blk) + within;
    }

    /** Writes the footer behind the last block. */
    method RewriteFooter()
      modifies this`file
      ensures file == Put(old(file), freeOffset, Footer)
    {
      file := Put(file, freeOffset, Footer);
    }

    /** Appends a block for a sector of the disk whose block is not allocated. */
    method AllocBlock(n: nat) returns (ok: bool, offset: nat)
      requires Valid() && (n == totalSectors ==> Div(n, blk) < entries)
      modifies this
      ensures Valid() && ok == (n <= totalSectors && !Allocated(old(View()), n))
      ensures ok ==>
                Allocated(View(), n) && offset == PlaceOf(View(), n) && freeOffset == old(freeOffset) + Unit(View())
      ensures forall k: nat :: Guest(View(), k) == Guest(old(View()), k)
      ensures !ok ==> View() == old(View())
      ensures BitmapsKept(old(View()), View()) && (ok ==> BitmapSet(View(), Div(n, blk)))
    {
      hide WellFormed, BitmapSectors, BatEnd, Guest, Mod, BitmapSet, LastSet;
      if !Accepted(n, totalSectors) { return false, 0; }
      var index := Div(n, blk);
      if n < totalSectors { DivMono(n, totalSectors - 1, blk); }
      if pagetable[index].At? { return false, 0; }
      AppendBlock(index);
      ok, offset := GetSectorOffset(n, false);
    }

    /** Puts a block with its bitmap where the footer is, the footer behind it, and the place into both BATs. */
    method AppendBlock(index: nat)
      requires Valid() && index < entries && pagetable[index].Unused?
      modifies this`pagetable, this`file, this`freeOffset
      ensures Valid() && pagetable == old(pagetable)[index := At(old(freeOffset))]
      ensures freeOffset == old(freeOffset) + Unit(View()) && forall k: nat :: Guest(View(), k) == Guest(old(View()), k)
      ensures BitmapSet(View(), index) && BitmapsKept(old(View()), View())
    {
      hide WellFormed, BitmapSectors, BatEnd, Guest, Div, StoredAt, BitmapSet, LastSet, BitmapsKept, Put, PutBits;
      ghost var was := View();
      AppendStep(was, freeOffset, index);
      HasBat(Grown(was, freeOffset), bat, was.pt[index], index);
      pagetable := pagetable[index := At(freeOffset)];
      file := PutBits(file, freeOffset, BitmapSectors(blk));
      freeOffset := freeOffset + blk + BitmapSectors(blk);
      RewriteFooter();
      file := BatPut(file, bat, index, pagetable[index]);
      assert View() == Appended(was, old(freeOffset), index);
      if lastBitmap >= 0 { LastKept(was, View(), lastBitmap); }
    }

    /** vpc_read: sectors of blocks that are not allocated read as zeros. */
    method VpcRead(start: nat, nb: nat) returns (buf: seq<nat>)
      requires Valid()
      modifies this`file, this`lastBitmap
      ensures Valid() && View() == old(View())
      ensures |buf| == nb && forall k :: 0 <= k < nb ==> buf[k] == Guest(View(), start + k)
    {
      hide WellFormed, BitmapSectors, BatEnd, Div, Mod;
      buf := [];
      for i := 0 to nb
        invariant Valid() && View() == old(View()) && |buf| == i
        invariant forall k :: 0 <= k < i ==> buf[k] == Guest(View(), start + k)
      {
        var found, offset := GetSectorOffset(start + i, false);
        if !found {
          buf := buf + [0];
        } else {
          InOneBlock(View(), freeOffset, start + i, Div(start + i, blk));
          LengthIs(View(), freeOffset);
          buf := buf + [file[offset].value];
        }
      }
    }

    /** vpc_write: stops at the first sector past the disk whose block is not allocated. */
    method VpcWrite(start: nat, data: seq<nat>) returns (ok: bool, ghost done: nat)
      requires Valid() && (start <= totalSectors < start + |data| ==> Div(totalSectors, blk) < entries)
      modifies this
      ensures Valid() && done <= |data| && Overwritten(old(View()), View(), start, data[..done])
      ensures ok <==> done == |data|
      ensures !ok ==> start + done > totalSectors
      ensures forall k :: start <= k < start + done ==> BitmapSet(View(), Div(k, blk))
    {
      hide WellFormed, BitmapSectors, BatEnd, Guest, Div, Mod, BitmapSet, LastSet;
      done := 0;
      var i := 0;
      while i < |data|
        invariant i == done <= |data| && Valid() && Overwritten(old(View()), View(), start, data[..done])
        invariant forall k :: start <= k < start + done ==> BitmapSet(View(), Div(k, blk))
      {
        var found, offset := GetSectorOffset(start + i, true);
        if !found {
          found, offset := AllocBlock(start + i);
          if !found { return false, done; }
        }
        ghost var before := View();
        DataStep(View(), freeOffset, start + i, data[i]);
        file := Put(file, offset, Raw(data[i]));
        if lastBitmap >= 0 { LastKept(before, View(), lastBitmap); }
        OneMore(old(View()), before, View(), start, data, i);
        i, done := i + 1, done + 1;
      }
      assert data[..done] == data;
      ok := true;
    }
  }

  /** The entry is that of a block that ends at x. */
  predicate EndsAt(slot: Slot, unit: nat, x: nat) { slot.At? && slot.sector + unit == x }

  lemma OneMore(was: Image, before: Image, now: Image, start: nat, data: seq<nat>, i: nat)
    requires i < |data| && Overwritten(was, before, start, data[..i])
    requires forall k: nat :: Guest(now, k) == if k == start + i then data[i] else Guest(before, k)
    ensures Overwritten(was, now, start, data[..i + 1])
  {
    hide Guest;
  }

  // ----- any run of reads and writes

  datatype Request = Read(start: nat, nb: nat) | Write(start: nat, data: seq<nat>)

  predicate OnDisk(r: Request, total: nat) {
    r.start + (if r.Read? then r.nb else |r.data|) <= total
  }

  function Splice(s: seq<nat>, at: nat, data: seq<nat>): (r: seq<nat>)
    requires at + |data| <= |s|
    ensures |r| == |s| && forall k :: 0 <= k < |s| ==> r[k] == if at <= k < at + |data| then data[k - at] else s[k]
  {
    s[..at] + data + s[at + |data|..]
  }

  /** What a flat disk holds after the requests. */
  function FlatAfter(flat: seq<nat>, rs: seq<Request>): (r: seq<nat>)
    requires forall i :: 0 <= i < |rs| ==> OnDisk(rs[i], |flat|)
    ensures |r| == |flat|
  {
    if rs == [] then flat
    else
      var before, last := FlatAfter(flat, rs[..|rs| - 1]), rs[|rs| - 1];
      assert OnDisk(last, |flat|);
      if last.Read? then before else Splice(before, last.start, last.data)
  }

  /** What the reads among the requests return from a flat disk. */
  function FlatReads(flat: seq<nat>, rs: seq<Request>): seq<seq<nat>>
    requires forall i :: 0 <= i < |rs| ==> OnDisk(rs[i], |flat|)
  {
    if rs == [] then []
    else
      var before, last := FlatAfter(flat, rs[..|rs| - 1]), rs[|rs| - 1];
      assert OnDisk(last, |flat|);
      FlatReads(flat, rs[..|rs| - 1]) + if last.Read? then [before[last.start..last.start + last.nb]] else []
  }

  /** The guest sees the flat disk. */
  ghost predicate Shows(m: Image, flat: seq<nat>) {
    forall n :: 0 <= n < |flat| ==> Guest(m, n) == flat[n]
  }

  /** Serves one request as a flat disk would. */
  method Serve(d: Disk, r: Request, ghost flat: seq<nat>) returns (buf: seq<nat>)
    requires d.Valid() && Shows(d.View(), flat) && |flat| == d.totalSectors && OnDisk(r, |flat|)
    modifies d
    ensures d.Valid() && Shows(d.View(), if r.Read? then flat else Splice(flat, r.start, r.data))
    ensures r.Read? ==> buf == flat[r.start..r.start + r.nb]
  {
    hide WellFormed, Guest, Div;
    buf := [];
    match r
    case Read(start, nb) =>
      buf := d.VpcRead(start, nb);
    case Write(start, data) =>
      ghost var done;
      var ok;
      ok, done := d.VpcWrite(start, data);
      assert data[..done] == data;
  }

  /** Any run of requests behaves as on a flat disk. */
  method Run(d: Disk, rs: seq<Request>, ghost flat: seq<nat>) returns (outs: seq<seq<nat>>)
    requires d.Valid() && Shows(d.View(), flat) && |flat| == d.totalSectors
    requires forall i :: 0 <= i < |rs| ==> OnDisk(rs[i], |flat|)
    modifies d
    ensures d.Valid() && Shows(d.View(), FlatAfter(flat, rs)) && outs == FlatReads(flat, rs)
  {
    hide Shows, Splice, WellFormed;
    outs := [];
    for i := 0 to |rs|
      invariant d.Valid() && Shows(d.View(), FlatAfter(flat, rs[..i])) && outs == FlatReads(flat, rs[..i])
    {
      assert rs[..i + 1][..i] == rs[..i] && rs[..i + 1][i] == rs[i];
      var buf := Serve(d, rs[i], FlatAfter(flat, rs[..i]));
      if rs[i].Read? { outs := outs + [buf]; }
    }
    assert rs[..|rs|] == rs;
  }
}
