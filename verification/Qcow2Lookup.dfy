/** Finding guest clusters: the level-2 cache as a value, scans of a table, and runs of sectors. */
module Qcow2Lookup {
  import opened Arith
  import opened Qcow2Format
  import opened Qcow2Store
  import opened Qcow2Invariant
  import opened Qcow2Steps

  const L2_CACHE_SIZE: nat := 16
  const MAX_HITS: nat := 0xffffffff

  // ----- the level-2 cache

  /**
    Every used slot holds the table that the file holds at its offset, no two slots hold the
    same table, and every cached table is still referred to, so that its cluster cannot have
    been given to another use.
   */
  ghost predicate CacheAgrees(img: Img, offsets: seq<nat>, tables: seq<seq<Entry>>) {
    && |offsets| == |tables| == L2_CACHE_SIZE
    && (forall x :: 0 <= x < |offsets| && offsets[x] != 0 ==>
          offsets[x] < |img.disk| && img.disk[offsets[x]] == L2(tables[x]) && References(img, offsets[x]) >= 1)
    && (forall x, y :: 0 <= x < y < |offsets| && offsets[x] != 0 ==> offsets[x] != offsets[y])
  }

  /** The cache outlives writes to other clusters as long as the cached tables are referred to. */
  lemma CacheStays(img: Img, img': Img, offsets: seq<nat>, tables: seq<seq<Entry>>, w: set<nat>)
    requires CacheAgrees(img, offsets, tables) && SameOutside(img.disk, img'.disk, w)
    requires forall x :: 0 <= x < |offsets| && offsets[x] != 0 ==> offsets[x] !in w && References(img', offsets[x]) >= 1
    ensures CacheAgrees(img', offsets, tables)
  {
  }

  /** After a table was copied for the active tree, slot holds the copy and the others still agree. */
  lemma CacheAfterCow(img0: Img, img2: Img, i: nat, h: nat, offsets: seq<nat>, tables: seq<seq<Entry>>, slot: nat)
    requires CacheAgrees(img0, offsets, tables) && slot < L2_CACHE_SIZE
    requires Inv(img0, []) && i < |img0.l1| && 0 < h < |img0.disk| && References(img0, h) == 0
    requires img0.l1[i].host != 0 ==> References(img0, img0.l1[i].host) >= 2
    requires SameOutside(img0.disk, img2.disk, {h, img0.l1Offset + Div(i, L2_SIZE)})
    requires img2.disk[h].L2?
    requires forall k: nat :: References(img2, k) + Refs(img0.l1[i], k) == References(img0, k) + Refs(Entry(h, true), k)
    ensures CacheAgrees(img2, offsets[slot := h], tables[slot := img2.disk[h].entries])
  {
    hide Regions, Trees, References, Div, Flags, Exact;
    ActiveL1Cluster(img0, i);
  }

  /** The hit counts after a hit in slot i: one more there, and all halved when that would overflow. */
  function AfterHit(counts: seq<nat>, i: nat): (r: seq<nat>)
    requires i < |counts|
    ensures |r| == |counts|
    ensures counts[i] + 1 < 0xffff_ffff ==>
              r[i] == counts[i] + 1 && forall x :: 0 <= x < |r| && x != i ==> r[x] == counts[x]
    ensures counts[i] + 1 == 0xffff_ffff ==>
              r[i] == 0x7fff_ffff && forall x :: 0 <= x < |r| && x != i ==> r[x] == counts[x] / 2
  {
    var hit := counts[i := counts[i] + 1];
    if hit[i] == MAX_HITS then seq(|hit|, x requires 0 <= x < |hit| => hit[x] / 2) else hit
  }

  // ----- table scans

  function Masked(e: Entry, mask: bool): Entry { if mask then Entry(e.host, false) else e }

  /** Counts how many entries from start on continue the run that the entry at j begins. */
  method CountContiguousClusters(nb: nat, t: seq<Entry>, j: nat, start: nat, mask: bool) returns (c: nat)
    requires j < |t| && j + start + nb <= |t|
    ensures c <= nb && (Masked(t[j], mask) == Unused ==> c == 0)
    ensures forall x :: j + start <= x < j + start + c ==>
              Masked(t[x], mask) == Entry(t[j].host + (x - j), Masked(t[j], mask).copied)
    ensures Masked(t[j], mask) != Unused && c < nb ==>
              Masked(t[j + start + c], mask) != Entry(t[j].host + start + c, Masked(t[j], mask).copied)
  {
    var e := Masked(t[j], mask);
    if e == Unused { return 0; }
    var i := start;
    while i < start + nb && Entry(e.host + i, e.copied) == Masked(t[j + i], mask)
      invariant start <= i <= start + nb
      invariant forall x :: j + start <= x < j + i ==> Masked(t[x], mask) == Entry(e.host + (x - j), e.copied)
    {
      i := i + 1;
    }
    c := i - start;
  }

  method CountContiguousFreeClusters(nb: nat, t: seq<Entry>, j: nat) returns (c: nat)
    requires j + nb <= |t|
    ensures c <= nb && (forall x :: j <= x < j + c ==> t[x] == Unused)
    ensures c < nb ==> t[j + c] != Unused
  {
    c := 0;
    while c < nb && t[j + c] == Unused
      invariant c <= nb && forall x :: j <= x < j + c ==> t[x] == Unused
    {
      c := c + 1;
    }
  }

  /** Entry x behind j is unused, or would continue an allocated entry at j. */
  predicate Joins(t: seq<Entry>, j: nat, x: nat)
    requires j + x < |t|
  {
    t[j + x] == Unused || (t[j] != Unused && t[j + x] == Entry(t[j].host + x, t[j].copied))
  }

  /**
    How many of the nb entries from j on can be given new clusters together: none of them may be
    written in place. The scan goes by runs that continue the first entry and runs of unused entries.
   */
  method CountAllocatable(t: seq<Entry>, j: nat, nb: nat) returns (n: nat)
    requires 0 < nb && j + nb <= |t| && !t[j].copied
    requires forall x :: 0 <= x < |t| && t[x].host == 0 ==> t[x] == Unused
    ensures 0 < n <= nb && (forall x :: j <= x < j + n ==> !t[x].copied) && (n < nb ==> t[j + n] != Unused)
    ensures forall x :: 0 <= x < n ==> Joins(t, j, x)
    ensures n < nb ==> !Joins(t, j, n)
  {
    var i := 0;
    while i < nb
      invariant 0 <= i <= nb && forall x :: j <= x < j + i ==> !t[x].copied
      invariant forall x :: 0 <= x < i ==> Joins(t, j, x)
      decreases nb - i
    {
      var c := CountContiguousClusters(nb - i, t, j, i, false);
      ghost var i0 := i;
      i := i + c;
      if i < nb && t[j + i] != Unused { break; }
      c := CountContiguousFreeClusters(nb - i, t, j + i);
      i := i + c;
      if i < nb && t[j + i].copied { break; }
    }
    n := i;
  }

  /** Guest clusters g .. g + c - 1 are unallocated (h is 0) or are the host clusters from h on. */
  ghost predicate Maps(d: Disk, l1: seq<Entry>, g: nat, c: nat, h: nat) {
    forall x: nat :: g <= x < g + c ==> HostOf(d, l1, x) == if h == 0 then 0 else h + (x - g)
  }

  /** Consecutive guest clusters within one level-2 table are consecutive entries of it. */
  lemma SameTable(g: nat, x: nat)
    requires g <= x && Mod(g, L2_SIZE) + (x - g) < L2_SIZE
    ensures Div(x, L2_SIZE) == Div(g, L2_SIZE) && Mod(x, L2_SIZE) == Mod(g, L2_SIZE) + (x - g)
  {
    DivModAdd(g, x - g, L2_SIZE);
  }

  /** Guest sectors of a mapped run are the sectors of the host run. */
  lemma GuestRun(d: Disk, l1: seq<Entry>, backing: seq<Sector>, s: nat, c: nat, h: nat, t: nat)
    requires Maps(d, l1, Div(s, CLUSTER_SECTORS), c, h)
    requires Div(Mod(s, CLUSTER_SECTORS) + t, CLUSTER_SECTORS) < c
    ensures GuestAt(d, l1, backing, s + t)
         == if h == 0 then Backing(backing, s + t) else RunSector(d, h, Mod(s, CLUSTER_SECTORS) + t)
  {
    DivModAdd(s, t, CLUSTER_SECTORS);
    assert Div(s + t, CLUSTER_SECTORS) == Div(s, CLUSTER_SECTORS) + Div(Mod(s, CLUSTER_SECTORS) + t, CLUSTER_SECTORS);
  }

  /** Sectors that remain in the part of the disk that one level-1 entry describes. */
  function ToEndOfTable(s: nat): int {
    var n: pos := L2_SIZE * CLUSTER_SECTORS;
    n - Mod(s, n)
  }

  lemma EndOfTable(s: nat)
    ensures ToEndOfTable(s) + Mod(s, CLUSTER_SECTORS)
         == (L2_SIZE - Mod(Div(s, CLUSTER_SECTORS), L2_SIZE)) * CLUSTER_SECTORS
  {
    ModProduct(s, L2_SIZE, CLUSTER_SECTORS);
    var j := Mod(Div(s, CLUSTER_SECTORS), L2_SIZE);
    assert (L2_SIZE - j) * CLUSTER_SECTORS == L2_SIZE * CLUSTER_SECTORS - j * CLUSTER_SECTORS;
  }

  /** The sectors of c clusters. */
  function SectorsIn(c: nat): nat { c * CLUSTER_SECTORS }

  function Min(a: int, b: int): int { if a < b then a else b }

  lemma PartRead(img: Img, backing: seq<Sector>, s: nat, m: nat, h: nat, part: seq<Sector>)
    requires Maps(img.disk, img.l1, Div(s, CLUSTER_SECTORS), Reach(Mod(s, CLUSTER_SECTORS), m), h) && |part| == m
    requires forall t :: 0 <= t < m ==>
               part[t] == if h == 0 then Backing(backing, s + t)
                   else RunSector(img.disk, h, Mod(s, CLUSTER_SECTORS) + t)
    ensures forall t :: 0 <= t < m ==> part[t] == Guest(img, backing, s + t)
  {
    hide *;
    forall t | 0 <= t < m
      ensures part[t] == Guest(img, backing, s + t)
    {
      PartReadAt(img, backing, s, m, h, t);
    }
  }

  lemma PartReadAt(img: Img, backing: seq<Sector>, s: nat, m: nat, h: nat, t: nat)
    requires Maps(img.disk, img.l1, Div(s, CLUSTER_SECTORS), Reach(Mod(s, CLUSTER_SECTORS), m), h) && t < m
    ensures Guest(img, backing, s + t)
              == if h == 0 then Backing(backing, s + t) else RunSector(img.disk, h, Mod(s, CLUSTER_SECTORS) + t)
  {
    ReachAbove(Mod(s, CLUSTER_SECTORS), m, t);
    GuestRun(img.disk, img.l1, backing, s, Reach(Mod(s, CLUSTER_SECTORS), m), h, t);
  }

  /** The sectors wanted from one level-2 table, counted from the start of their first cluster. */
  lemma NeededFacts(s: nat, num: nat, needed: int)
    requires num > 0 && needed == Min(num + Mod(s, CLUSTER_SECTORS), ToEndOfTable(s) + Mod(s, CLUSTER_SECTORS))
    ensures Mod(s, CLUSTER_SECTORS) < needed
    ensures var left := L2_SIZE - Mod(Div(s, CLUSTER_SECTORS), L2_SIZE);
            needed <= SectorsIn(left) && 0 < CeilDiv(needed, CLUSTER_SECTORS) <= left
            && ToEndOfTable(s) + Mod(s, CLUSTER_SECTORS) == SectorsIn(left)
  {
    EndOfTable(s);
    CeilDivBelow(needed, L2_SIZE - Mod(Div(s, CLUSTER_SECTORS), L2_SIZE), CLUSTER_SECTORS);
  }

  /** What c clusters give of the sectors wanted reaches no further than those clusters. */
  lemma TakeFacts(o: nat, c: pos, needed: int)
    requires o < CLUSTER_SECTORS && o < needed
    ensures o < Min(SectorsIn(c), needed)
    ensures Reach(o, Min(SectorsIn(c), needed) - o) <= c
  {
    ProductAbove(c, CLUSTER_SECTORS);
    DivBelow(Min(SectorsIn(c), needed) - 1, c, CLUSTER_SECTORS);
  }

  /** The first c of the nb entries from j on form one run with the entry at j, allocated or not, and no more do. */
  ghost predicate Scanned(t: seq<Entry>, j: nat, nb: nat, c: nat) {
    && 0 < c <= nb && j + nb <= |t|
    && (forall x :: j <= x < j + c ==> t[x].host == if t[j].host == 0 then 0 else t[j].host + (x - j))
    && (c < nb ==> t[j + c].host != if t[j].host == 0 then 0 else t[j].host + c)
  }

  /** How many of the nb entries from j on form one run with the entry at j, allocated or not. */
  method ScanTable(t: seq<Entry>, j: nat, nb: nat) returns (c: nat)
    requires 0 < nb && j + nb <= |t|
    requires forall x :: 0 <= x < |t| && t[x].host == 0 ==> t[x] == Unused
    ensures Scanned(t, j, nb, c)
  {
    if t[j] == Unused {
      c := CountContiguousFreeClusters(nb, t, j);
    } else {
      c := CountContiguousClusters(nb, t, j, 0, true);
    }
  }

  /** The n sectors from s on, at h, end with a cluster, and the next cluster is in another table or elsewhere. */
  ghost predicate RunEnds(d: Disk, l1: seq<Entry>, s: nat, n: nat, h: nat) {
    var g, g' := Div(s, CLUSTER_SECTORS), Div(s + n, CLUSTER_SECTORS);
    && Mod(s + n, CLUSTER_SECTORS) == 0
    && (Div(g', L2_SIZE) != Div(g, L2_SIZE) || HostOf(d, l1, g') != if h == 0 then 0 else h + (g' - g))
  }

  /** Where the run begins that is c clusters behind the one of s. */
  lemma ClustersOn(s: nat, c: pos)
    ensures var n := SectorsIn(c) - Mod(s, CLUSTER_SECTORS);
            n >= 0 && Div(s + n, CLUSTER_SECTORS) == Div(s, CLUSTER_SECTORS) + c && Mod(s + n, CLUSTER_SECTORS) == 0
  {
    ProductAbove(c, CLUSTER_SECTORS);
    DivModAdd(s, SectorsIn(c) - Mod(s, CLUSTER_SECTORS), CLUSTER_SECTORS);
    DivShift(SectorsIn(c), c, CLUSTER_SECTORS);
  }

  /** A run that was cut off at the end of its table. */
  lemma EndsWithTable(d: Disk, l1: seq<Entry>, s: nat, h: nat)
    ensures var n := SectorsIn(L2_SIZE - Mod(Div(s, CLUSTER_SECTORS), L2_SIZE)) - Mod(s, CLUSTER_SECTORS);
            n >= 0 && RunEnds(d, l1, s, n, h)
  {
    hide Div, Mod, SectorsIn;
    var g := Div(s, CLUSTER_SECTORS);
    var left := L2_SIZE - Mod(g, L2_SIZE);
    ClustersOn(s, left);
    DivModAdd(g, left, L2_SIZE);
    DivOne();
  }

  lemma DivOne()
    ensures Div(L2_SIZE, L2_SIZE) == 1
  {
  }

  /** A run of c entries that the entry behind it does not continue. */
  lemma EndsInTable(d: Disk, l1: seq<Entry>, s: nat, t: seq<Entry>, c: pos, h: nat)
    requires var g := Div(s, CLUSTER_SECTORS);
             && Div(g, L2_SIZE) < |l1| && l1[Div(g, L2_SIZE)].host != 0 && Table(d, l1[Div(g, L2_SIZE)].host) == t
             && |t| == L2_SIZE && Mod(g, L2_SIZE) + c < L2_SIZE
             && t[Mod(g, L2_SIZE) + c].host != if h == 0 then 0 else h + c
    ensures var n := SectorsIn(c) - Mod(s, CLUSTER_SECTORS);
            n >= 0 && RunEnds(d, l1, s, n, h)
  {
    hide Div, Mod, SectorsIn;
    var g := Div(s, CLUSTER_SECTORS);
    ClustersOn(s, c);
    SameTable(g, g + c);
  }

  /** Whatever part of the sectors wanted c entries give, the run could not be longer. */
  lemma ScanEnds(d: Disk, l1: seq<Entry>, s: nat, num: nat, needed: int, t: seq<Entry>, c: pos, h: nat)
    requires num > 0 && needed == Min(num + Mod(s, CLUSTER_SECTORS), ToEndOfTable(s) + Mod(s, CLUSTER_SECTORS))
    requires var g := Div(s, CLUSTER_SECTORS);
             && Div(g, L2_SIZE) < |l1| && l1[Div(g, L2_SIZE)].host != 0 && Table(d, l1[Div(g, L2_SIZE)].host) == t
             && |t| == L2_SIZE && needed >= 0 && c <= CeilDiv(needed, CLUSTER_SECTORS) <= L2_SIZE - Mod(g, L2_SIZE)
             && (c < CeilDiv(needed, CLUSTER_SECTORS) ==>
                   t[Mod(g, L2_SIZE) + c].host != if h == 0 then 0 else h + c)
    ensures var n := Min(SectorsIn(c), needed) - Mod(s, CLUSTER_SECTORS);
            n >= 0 && (n < num ==> RunEnds(d, l1, s, n, h))
  {
    hide Div, Mod, SectorsIn, CeilDiv, ToEndOfTable, RunEnds;
    var o := Mod(s, CLUSTER_SECTORS);
    NeededFacts(s, num, needed);
    TakeFacts(o, c, needed);
    if SectorsIn(c) < needed {
      CeilCovers(needed);
      EndsInTable(d, l1, s, t, c, h);
    } else if needed < num + o {
      EndsWithTable(d, l1, s, h);
    }
  }

  lemma CeilCovers(x: nat)
    ensures x <= SectorsIn(CeilDiv(x, CLUSTER_SECTORS))
  {
    DivModDef(x + CLUSTER_SECTORS - 1, CLUSTER_SECTORS);
  }

  lemma MapsLess(d: Disk, l1: seq<Entry>, g: nat, c: nat, h: nat, c': nat)
    requires Maps(d, l1, g, c, h) && c' <= c
    ensures Maps(d, l1, g, c', h)
  {
  }

  lemma MapsFromTable(d: Disk, l1: seq<Entry>, g: nat, t: seq<Entry>, c: nat, h: nat)
    requires Div(g, L2_SIZE) < |l1| && l1[Div(g, L2_SIZE)].host != 0 && Table(d, l1[Div(g, L2_SIZE)].host) == t
    requires |t| == L2_SIZE && Mod(g, L2_SIZE) + c <= L2_SIZE
    requires var j := Mod(g, L2_SIZE); forall x :: j <= x < j + c ==> t[x].host == if h == 0 then 0 else h + (x - j)
    ensures Maps(d, l1, g, c, h)
  {
    forall x: nat | g <= x < g + c
      ensures HostOf(d, l1, x) == if h == 0 then 0 else h + (x - g)
    {
      SameTable(g, x);
    }
  }

  lemma MapsUnused(d: Disk, l1: seq<Entry>, g: nat, c: nat)
    requires Div(g, L2_SIZE) < |l1| ==> l1[Div(g, L2_SIZE)] == Unused
    requires Mod(g, L2_SIZE) + c <= L2_SIZE
    ensures Maps(d, l1, g, c, 0)
  {
    forall x: nat | g <= x < g + c
      ensures HostOf(d, l1, x) == 0
    {
      SameTable(g, x);
    }
  }

  /** The run that a level-2 table gives for the sectors wanted from s on. */
  lemma FoundRun(d: Disk, l1: seq<Entry>, s: nat, needed: int, t: seq<Entry>, c: pos, h: nat)
    requires Mod(s, CLUSTER_SECTORS) < needed
    requires var g := Div(s, CLUSTER_SECTORS);
             && Div(g, L2_SIZE) < |l1| && l1[Div(g, L2_SIZE)].host != 0 && Table(d, l1[Div(g, L2_SIZE)].host) == t
             && |t| == L2_SIZE && Mod(g, L2_SIZE) + c <= L2_SIZE
             && var j := Mod(g, L2_SIZE); forall x :: j <= x < j + c ==> t[x].host == if h == 0 then 0 else h + (x - j)
    ensures var o := Mod(s, CLUSTER_SECTORS);
            && o < Min(SectorsIn(c), needed)
            && Maps(d, l1, Div(s, CLUSTER_SECTORS), Reach(o, Min(SectorsIn(c), needed) - o), h)
  {
    hide Div, Mod, Maps, Reach, SectorsIn;
    var g, o := Div(s, CLUSTER_SECTORS), Mod(s, CLUSTER_SECTORS);
    TakeFacts(o, c, needed);
    MapsFromTable(d, l1, g, t, c, h);
    MapsLess(d, l1, g, c, h, Reach(o, Min(SectorsIn(c), needed) - o));
  }

  /** The run of sectors without a table. */
  lemma UnusedRun(d: Disk, l1: seq<Entry>, s: nat, needed: int)
    requires Mod(s, CLUSTER_SECTORS) < needed
    requires var i := Div(Div(s, CLUSTER_SECTORS), L2_SIZE); i < |l1| ==> l1[i] == Unused
    ensures var o, c := Mod(s, CLUSTER_SECTORS), L2_SIZE - Mod(Div(s, CLUSTER_SECTORS), L2_SIZE);
            && o < Min(SectorsIn(c), needed)
            && Maps(d, l1, Div(s, CLUSTER_SECTORS), Reach(o, Min(SectorsIn(c), needed) - o), 0)
  {
    hide Div, Mod, Maps, Reach, SectorsIn;
    var g, o := Div(s, CLUSTER_SECTORS), Mod(s, CLUSTER_SECTORS);
    var c := L2_SIZE - Mod(g, L2_SIZE);
    TakeFacts(o, c, needed);
    MapsUnused(d, l1, g, c);
    MapsLess(d, l1, g, c, 0, Reach(o, Min(SectorsIn(c), needed) - o));
  }

  /** The run of sectors that a scan of the table gives, and that it could not be longer. */
  lemma RunFound(d: Disk, l1: seq<Entry>, s: nat, num: nat, needed: int, t: seq<Entry>, c: nat)
    requires num > 0 && needed == Min(num + Mod(s, CLUSTER_SECTORS), ToEndOfTable(s) + Mod(s, CLUSTER_SECTORS))
    requires var g := Div(s, CLUSTER_SECTORS);
             && Div(g, L2_SIZE) < |l1| && l1[Div(g, L2_SIZE)].host != 0 && Table(d, l1[Div(g, L2_SIZE)].host) == t
             && |t| == L2_SIZE && needed >= 0 && Scanned(t, Mod(g, L2_SIZE), CeilDiv(needed, CLUSTER_SECTORS), c)
    ensures var o, g := Mod(s, CLUSTER_SECTORS), Div(s, CLUSTER_SECTORS);
            var n, h := Min(SectorsIn(c), needed) - o, t[Mod(g, L2_SIZE)].host;
            && 0 < n <= num && Maps(d, l1, g, Reach(o, n), h) && (n < num ==> RunEnds(d, l1, s, n, h))
  {
    hide Div, Mod, Maps, Reach, CeilDiv, SectorsIn, ToEndOfTable, RunEnds;
    NeededFacts(s, num, needed);
    var h := t[Mod(Div(s, CLUSTER_SECTORS), L2_SIZE)].host;
    FoundRun(d, l1, s, needed, t, c, h);
    ScanEnds(d, l1, s, num, needed, t, c, h);
  }
}
