/** What writes do to the guest disk: in place, and through newly entered clusters. */
module Qcow2Writing {
  import opened Arith
  import opened Qcow2Format
  import opened Qcow2Store
  import opened Qcow2Invariant
  import opened Qcow2Steps
  import opened Qcow2Lookup

  /** c clusters that hold no more than the sectors wanted are all reached. */
  lemma TakeAll(o: nat, c: pos, needed: int)
    requires o < CLUSTER_SECTORS && o < needed && c <= CeilDiv(needed, CLUSTER_SECTORS)
    ensures o < Min(SectorsIn(c), needed)
    ensures Reach(o, Min(SectorsIn(c), needed) - o) == c
  {
    TakeFacts(o, c, needed);
    var a := Min(SectorsIn(c), needed);
    if a == needed {
      assert needed + CLUSTER_SECTORS - 1 == (needed - 1) + CLUSTER_SECTORS;
      assert Div(needed - 1 + CLUSTER_SECTORS, CLUSTER_SECTORS) == 1 + Div(needed - 1, CLUSTER_SECTORS);
    } else {
      DivOfProduct(c, CLUSTER_SECTORS);
    }
  }

  /** Where guest sector x is, counted from the start of the cluster of sector s. */
  lemma Position(s: nat, x: nat)
    ensures var start := s - Mod(s, CLUSTER_SECTORS);
            && start >= 0
            && (x >= start ==> Div(x, CLUSTER_SECTORS) == Div(s, CLUSTER_SECTORS) + Div(x - start, CLUSTER_SECTORS)
                               && Mod(x, CLUSTER_SECTORS) == Mod(x - start, CLUSTER_SECTORS))
            && (x < start ==> Div(x, CLUSTER_SECTORS) < Div(s, CLUSTER_SECTORS))
  {
    StartOf(s, CLUSTER_SECTORS);
    var start := s - Mod(s, CLUSTER_SECTORS);
    if x >= start {
      DivModAdd(start, x - start, CLUSTER_SECTORS);
    } else {
      DivLess(x, start, CLUSTER_SECTORS);
    }
  }

  /** No two guest clusters of the active tree share a host cluster. */
  lemma HostUnique(d: Disk, l1: seq<Entry>, x: nat, y: nat)
    requires Tree(d, l1) && HostOf(d, l1, x) != 0 && HostOf(d, l1, x) == HostOf(d, l1, y)
    ensures x == y
  {
    var k := HostOf(d, l1, x);
    var i, i', j, j' := Div(x, L2_SIZE), Div(y, L2_SIZE), Mod(x, L2_SIZE), Mod(y, L2_SIZE);
    TablePathsAt(Table(d, l1[i].host), j, k);
    TablePathsAt(Table(d, l1[i'].host), j', k);
    if i < i' {
      RootPathsTwo(d, l1, i, i', k);
    } else if i' < i {
      RootPathsTwo(d, l1, i', i, k);
    } else {
      RootPathsAt(d, l1, i, k);
      if j < j' { TablePathsTwo(Table(d, l1[i].host), j, j', k); }
      if j' < j { TablePathsTwo(Table(d, l1[i].host), j', j, k); }
      DivModUnique(x, y, L2_SIZE);
    }
  }

  /** The clusters h .. h + c - 1. */
  function Span(h: nat, c: nat): (w: set<nat>)
    ensures forall k: nat :: k in w <==> h <= k < h + c
  {
    if c == 0 then {} else Span(h, c - 1) + {h + c - 1}
  }

  /** Guest clusters g .. g + c - 1 are held by h .. h + c - 1, which nothing else refers to. */
  ghost predicate InPlace(img: Img, g: nat, c: nat, h: nat) {
    && h > 0 && Maps(img.disk, img.l1, g, c, h)
    && h + c <= |img.rc| && (forall k :: h <= k < h + c ==> img.rc[k] == 1)
  }

  lemma {:induction false} HostMet(d: Disk, l1: seq<Entry>, x: nat)
    requires HostOf(d, l1, x) != 0
    ensures RootPaths(d, l1, HostOf(d, l1, x)) >= 1
  {
    var i, j := Div(x, L2_SIZE), Mod(x, L2_SIZE);
    TablePathsAt(Table(d, l1[i].host), j, HostOf(d, l1, x));
    RootPathsAt(d, l1, i, HostOf(d, l1, x));
  }

  lemma HostData(d: Disk, l1: seq<Entry>, x: nat)
    requires RootOk(d, l1) && HostOf(d, l1, x) != 0
    ensures HostOf(d, l1, x) < |d| && FullData(d[HostOf(d, l1, x)])
  {
    var i, j := Div(x, L2_SIZE), Mod(x, L2_SIZE);
    assert SubtreeOk(d, l1[i]);
    assert EntryOk(d, Table(d, l1[i].host)[j]);
  }

  /** In-place clusters may be written. */
  lemma InPlaceWritable(img: Img, g: nat, c: nat, h: nat, k: nat)
    requires Inv(img, []) && InPlace(img, g, c, h) && h <= k < h + c
    ensures k < |img.disk| && Private(img, k) && FullData(img.disk[k])
  {
    hide Regions, Exact, Flags, RootPaths, SnapPaths, Meta;
    assert HostOf(img.disk, img.l1, g + (k - h)) == k;
    HostMet(img.disk, img.l1, g + (k - h));
    HostData(img.disk, img.l1, g + (k - h));
    OnlyActive(img, [], k);
  }

  /** What a write of sectors from sector o of cluster h on does to the disk. */
  ghost predicate SectorsWritten(d: Disk, d': Disk, h: nat, o: nat, buf: seq<Sector>) {
    && |d'| == |d|
    && (forall p: nat :: RunSector(d', h, p) == if o <= p < o + |buf| then buf[p - o] else RunSector(d, h, p))
    && (forall k :: 0 <= k < |d| ==> if h <= k < h + Reach(o, |buf|) then FullData(d'[k]) else d'[k] == d[k])
  }

  lemma InPlaceWritten(img: Img, img': Img, g: nat, c: nat, h: nat, o: nat, buf: seq<Sector>)
    requires Inv(img, []) && InPlace(img, g, c, h) && Reach(o, |buf|) <= c
    requires img' == img.(disk := img'.disk) && SectorsWritten(img.disk, img'.disk, h, o, buf)
    ensures Written(img, img', Span(h, c)) && Inv(img', []) && SnapsKept(img, img')
    ensures forall k: nat :: References(img', k) == References(img, k)
  {
    hide Regions, Trees, Exact, Flags, SnapsKept, References, InPlace, Meta, SnapMeta, SnapPaths, RootPaths, Reach,
         RunSector, SnapFree;
    forall k | k in Span(h, c)
      ensures Writable(img, img'.disk, k)
    {
      InPlaceWritable(img, g, c, h, k);
    }
    DataStep(img, img', Span(h, c), []);
  }

  /** Guest cluster g has a cluster that only the active tree refers to, as COPIED says on both levels. */
  ghost predicate Owned(img: Img, g: nat) {
    var i, j := Div(g, L2_SIZE), Mod(g, L2_SIZE);
    && i < |img.l1| && img.l1[i].copied
    && j < |Table(img.disk, img.l1[i].host)| && Table(img.disk, img.l1[i].host)[j].copied
  }

  /** Only data changed: counts, tables and all else are the same. */
  ghost predicate SameTables(img: Img, img': Img) {
    img' == img.(disk := img'.disk) && forall x: nat :: Table(img'.disk, x) == Table(img.disk, x)
  }

  lemma OwnedStays(img: Img, img': Img, g: nat)
    requires SameTables(img, img')
    ensures Owned(img', g) == Owned(img, g) && HostOf(img'.disk, img'.l1, g) == HostOf(img.disk, img.l1, g)
  {
    hide Div, Mod;
  }

  /** Every guest cluster that the n sectors from s on reach is owned. */
  ghost predicate AllOwned(img: Img, s: nat, n: nat) {
    forall x: nat :: s <= x < s + n ==> Owned(img, Div(x, CLUSTER_SECTORS))
  }

  lemma StillOwned(img: Img, img': Img, s: nat, n: nat, t: nat)
    requires AllOwned(img, s, n) && SameTables(img, img') && t < n
    ensures Owned(img', Div(s + t, CLUSTER_SECTORS))
  {
    hide Owned, SameTables, Div;
    OwnedStays(img, img', Div(s + t, CLUSTER_SECTORS));
  }

  lemma SameTablesSelf(img: Img)
    ensures SameTables(img, img)
  {
  }

  lemma SameTablesTwice(a: Img, b: Img, c: Img)
    requires SameTables(a, b) && SameTables(b, c)
    ensures SameTables(a, c)
  {
  }

  lemma InPlaceTables(img: Img, img': Img, g: nat, c: nat, h: nat, o: nat, buf: seq<Sector>)
    requires Inv(img, []) && InPlace(img, g, c, h) && Reach(o, |buf|) <= c
    requires img' == img.(disk := img'.disk) && SectorsWritten(img.disk, img'.disk, h, o, buf)
    ensures SameTables(img, img')
  {
    hide Regions, Trees, Exact, Flags, References, InPlace, Meta, SnapMeta, SnapPaths, RootPaths, Reach, RunSector;
    forall x: nat
      ensures Table(img'.disk, x) == Table(img.disk, x)
    {
      if h <= x < h + c { InPlaceWritable(img, g, c, h, x); }
    }
  }

  /** Guest sectors of clusters that h .. h + c - 1 hold, by their position in that run. */
  lemma RunGuest(d: Disk, l1: seq<Entry>, backing: seq<Sector>, s: nat, c: nat, h: nat, x: nat)
    requires h > 0 && Maps(d, l1, Div(s, CLUSTER_SECTORS), c, h)
    requires Div(s, CLUSTER_SECTORS) <= Div(x, CLUSTER_SECTORS) < Div(s, CLUSTER_SECTORS) + c
    ensures x >= s - Mod(s, CLUSTER_SECTORS)
    ensures GuestAt(d, l1, backing, x) == RunSector(d, h, x - (s - Mod(s, CLUSTER_SECTORS)))
  {
    hide Div, Mod, HostOf, SectorOf;
    Position(s, x);
  }

  lemma InPlaceGuest(img: Img, img': Img, s: nat, c: nat, h: nat, buf: seq<Sector>, backing: seq<Sector>, x: nat)
    requires Inv(img, []) && InPlace(img, Div(s, CLUSTER_SECTORS), c, h)
    requires Reach(Mod(s, CLUSTER_SECTORS), |buf|) <= c && Written(img, img', Span(h, c))
    requires SectorsWritten(img.disk, img'.disk, h, Mod(s, CLUSTER_SECTORS), buf)
    ensures Guest(img', backing, x) == if s <= x < s + |buf| then buf[x - s] else Guest(img, backing, x)
  {
    hide Regions, Exact, Flags, SnapPaths, SnapMeta, Div, Mod, RootPaths, Reach, HostOf, SectorOf, Meta;
    var g, gx := Div(s, CLUSTER_SECTORS), Div(x, CLUSTER_SECTORS);
    if g <= gx < g + c {
      forall y: nat
        ensures HostOf(img'.disk, img'.l1, y) == HostOf(img.disk, img.l1, y)
      {
        SameMapping(img, img', Span(h, c), y);
      }
      RunGuest(img.disk, img.l1, backing, s, c, h, x);
      RunGuest(img'.disk, img'.l1, backing, s, c, h, x);
    } else {
      SameMapping(img, img', Span(h, c), gx);
      OutsideGuest(img, g, c, h, gx);
      OutsideRange(s, buf, c, x);
      assert SectorOf(img'.disk, HostOf(img.disk, img.l1, gx), Mod(x, CLUSTER_SECTORS))
          == SectorOf(img.disk, HostOf(img.disk, img.l1, gx), Mod(x, CLUSTER_SECTORS)) by {
        SectorKept(img.disk, img'.disk, HostOf(img.disk, img.l1, gx), Mod(x, CLUSTER_SECTORS));
      }
    }
  }

  lemma SectorKept(d: Disk, d': Disk, h: nat, o: nat)
    requires |d| == |d'| && (h < |d| ==> d[h] == d'[h])
    ensures SectorOf(d, h, o) == SectorOf(d', h, o)
  {
  }

  lemma OutsideRange(s: nat, buf: seq<Sector>, c: nat, x: nat)
    requires Reach(Mod(s, CLUSTER_SECTORS), |buf|) <= c
    requires !(Div(s, CLUSTER_SECTORS) <= Div(x, CLUSTER_SECTORS) < Div(s, CLUSTER_SECTORS) + c)
    ensures !(s <= x < s + |buf|)
  {
    Position(s, x);
    if s <= x < s + |buf| { ReachAbove(Mod(s, CLUSTER_SECTORS), |buf|, x - s); }
  }

  lemma OutsideGuest(img: Img, g: nat, c: nat, h: nat, gx: nat)
    requires Trees(img) && InPlace(img, g, c, h) && !(g <= gx < g + c)
    ensures var k := HostOf(img.disk, img.l1, gx); k == 0 || !(h <= k < h + c)
  {
    hide RootOk, HostOf;
    var k := HostOf(img.disk, img.l1, gx);
    if k != 0 && h <= k < h + c {
      assert HostOf(img.disk, img.l1, g + (k - h)) == k;
      HostUnique(img.disk, img.l1, gx, g + (k - h));
    }
  }

  lemma SameMapping(img: Img, img': Img, w: set<nat>, g: nat)
    requires Trees(img) && Written(img, img', w)
    ensures HostOf(img'.disk, img'.l1, g) == HostOf(img.disk, img.l1, g)
  {
    ActiveTables(img, img', w);
  }

  // ----- new clusters

  /** Writing into the run that is about to be linked changes nothing that is referred to. */
  lemma FreshWritten(img: Img, img': Img, i: nat, j: nat, first: nat, n: nat, h: nat, o: nat, buf: seq<Sector>)
    requires ReadyToLink(img, i, j, first, n) && first <= h && h + Reach(o, |buf|) <= first + n
    requires img' == img.(disk := img'.disk) && SectorsWritten(img.disk, img'.disk, h, o, buf)
    ensures ReadyToLink(img', i, j, first, n) && SnapsKept(img, img') && SameGuest(img, img')
    ensures forall k: nat :: References(img', k) == References(img, k)
    ensures RunFilled(img.disk, first, n) ==> RunFilled(img'.disk, first, n)
  {
    hide Regions, Exact, Flags, SnapsKept, SameGuest, Meta, SnapMeta, SnapPaths, RootPaths, Reach, RunSector;
    var w := Span(first, n);
    forall k | k in w
      ensures Writable(img, img'.disk, k) && RootPaths(img.disk, img.l1, k) == 0
    {
      Unreferenced(img, k);
    }
    DataStep(img, img', w, Run(first, n));
    GuestAvoids(img, img', w);
  }

  /** After linking, the guest clusters of the range are the clusters of the run. */
  lemma LinkMaps(img: Img, g: nat, first: nat, n: nat)
    requires ReadyToLink(img, Div(g, L2_SIZE), Mod(g, L2_SIZE), first, n)
    ensures Maps(LinkedImg(img, Div(g, L2_SIZE), Mod(g, L2_SIZE), first, n).disk, img.l1, g, n, first)
  {
    hide Regions, Exact, Flags, References, Div, Mod, TableOk;
    var i, j := Div(g, L2_SIZE), Mod(g, L2_SIZE);
    LinkedIs(img, i, j, first, n);
    var img' := LinkedImg(img, i, j, first, n);
    MapsFromTable(img'.disk, img.l1, g, Table(img'.disk, img.l1[i].host), n, first);
  }

  /** The one cluster that linking writes, and what is in it. */
  lemma LinkedIs(img: Img, i: nat, j: nat, first: nat, n: nat)
    requires ReadyToLink(img, i, j, first, n)
    ensures var h := img.l1[i].host;
            && h < |img.disk| && img.disk[h].L2? && |img.disk[h].entries| == L2_SIZE
            && (h < first || first + n <= h)
            && LinkedImg(img, i, j, first, n)
                == img.(disk := img.disk[h := L2(Linked(img.disk[h].entries, j, first, n))])
  {
    EntryForm(img, i);
    RootPathsAt(img.disk, img.l1, i, img.l1[i].host);
  }

  /** Linking changes the mapping of the range only. */
  lemma LinkOutside(img: Img, g: nat, first: nat, n: nat, x: nat)
    requires ReadyToLink(img, Div(g, L2_SIZE), Mod(g, L2_SIZE), first, n) && !(g <= x < g + n)
    ensures HostOf(LinkedImg(img, Div(g, L2_SIZE), Mod(g, L2_SIZE), first, n).disk, img.l1, x)
              == HostOf(img.disk, img.l1, x)
  {
    hide Div, Mod, Regions, Exact, Flags, References, TableOk;
    var i, j := Div(g, L2_SIZE), Mod(g, L2_SIZE);
    LinkedIs(img, i, j, first, n);
    TableOnce(img.disk, img.l1, i);
    OtherEntry(g, n, x);
  }

  /** A guest cluster outside a range within one table has another entry. */
  lemma OtherEntry(g: nat, n: nat, x: nat)
    requires Mod(g, L2_SIZE) + n <= L2_SIZE && !(g <= x < g + n)
    ensures !(Div(x, L2_SIZE) == Div(g, L2_SIZE) && Mod(g, L2_SIZE) <= Mod(x, L2_SIZE) < Mod(g, L2_SIZE) + n)
  {
    hide Div, Mod;
    if Div(x, L2_SIZE) == Div(g, L2_SIZE) && Mod(g, L2_SIZE) <= Mod(x, L2_SIZE) < Mod(g, L2_SIZE) + n {
      var y := g + (Mod(x, L2_SIZE) - Mod(g, L2_SIZE));
      SameTable(g, y);
      DivModUnique(x, y, L2_SIZE);
    }
  }

  /** The guest disk after a run was linked: the sectors of the run in its range, unchanged elsewhere. */
  lemma LinkGuest(img: Img, s: nat, first: nat, n: nat, backing: seq<Sector>, x: nat)
    requires var g := Div(s, CLUSTER_SECTORS); ReadyToLink(img, Div(g, L2_SIZE), Mod(g, L2_SIZE), first, n)
    ensures var g, start := Div(s, CLUSTER_SECTORS), s - Mod(s, CLUSTER_SECTORS);
            var img' := LinkedImg(img, Div(g, L2_SIZE), Mod(g, L2_SIZE), first, n);
            if g <= Div(x, CLUSTER_SECTORS) < g + n
            then x >= start && Guest(img', backing, x) == RunSector(img.disk, first, x - start)
            else Guest(img', backing, x) == Guest(img, backing, x)
  {
    hide Regions, Exact, Flags, References, Div, Mod, TableOk, HostOf, SectorOf;
    var g, gx := Div(s, CLUSTER_SECTORS), Div(x, CLUSTER_SECTORS);
    var i, j := Div(g, L2_SIZE), Mod(g, L2_SIZE);
    var img' := LinkedImg(img, i, j, first, n);
    LinkedIs(img, i, j, first, n);
    if g <= gx < g + n {
      LinkMaps(img, g, first, n);
      RunGuest(img'.disk, img.l1, backing, s, n, first, x);
      Position(s, x);
      SectorKept(img.disk, img'.disk, first + (gx - g), Mod(x, CLUSTER_SECTORS));
    } else {
      LinkOutside(img, g, first, n, gx);
      var k := HostOf(img.disk, img.l1, gx);
      if k != 0 { HostData(img.disk, img.l1, gx); }
      SectorKept(img.disk, img'.disk, k, Mod(x, CLUSTER_SECTORS));
    }
  }

  /** The other way round: a copied run of entries may be written in place. */
  lemma InPlaceFromTable(img: Img, g: nat, t: seq<Entry>, c: nat, h: nat)
    requires Inv(img, []) && Div(g, L2_SIZE) < |img.l1| && img.l1[Div(g, L2_SIZE)].host != 0
    requires t == Table(img.disk, img.l1[Div(g, L2_SIZE)].host) && |t| == L2_SIZE && 0 < c
    requires Mod(g, L2_SIZE) + c <= L2_SIZE
    requires var j := Mod(g, L2_SIZE); forall x :: j <= x < j + c ==> t[x] == Entry(h + (x - j), true)
    ensures InPlace(img, g, c, h)
  {
    hide Div, Mod, Regions, Exact, TablePaths, RootPaths, Tree;
    var i, j := Div(g, L2_SIZE), Mod(g, L2_SIZE);
    assert FlagsRight(img.rc, t);
    EntryForm(img, i);
    assert EntryOk(img.disk, t[j]);
    MapsFromTable(img.disk, img.l1, g, t, c, h);
    forall k | h <= k < h + c
      ensures k < |img.rc| && img.rc[k] == 1
    {
      assert t[j + (k - h)] == Entry(k, true);
    }
    assert t[j + (c - 1)] == Entry(h + (c - 1), true);
  }

  lemma InPlaceLess(img: Img, g: nat, c: nat, h: nat, c': nat)
    requires InPlace(img, g, c, h) && c' <= c
    ensures InPlace(img, g, c', h)
  {
    MapsLess(img.disk, img.l1, g, c, h, c');
  }

  /** Entries j .. j + n - 1 of t replaced by the run from first on, and the used ones among them. */
  method BuildLink(t: seq<Entry>, j: nat, first: nat, n: nat) returns (t': seq<Entry>, olds: seq<Entry>)
    requires j + n <= |t| && forall x :: 0 <= x < |t| && t[x].host == 0 ==> t[x] == Unused
    ensures t' == Linked(t, j, first, n)
    ensures forall k: nat :: TablePaths(olds, k) == TablePaths(t[j..j + n], k)
    ensures forall x :: 0 <= x < |olds| ==> olds[x].host != 0 && olds[x] in t
  {
    hide TablePaths, Linked;
    t', olds := t, [];
    assert t[j..j] == [];
    var i := 0;
    while i < n
      invariant i <= n && t' == Linked(t, j, first, i)
      invariant forall k: nat :: TablePaths(olds, k) == TablePaths(t[j..j + i], k)
      invariant forall x :: 0 <= x < |olds| ==> olds[x].host != 0 && olds[x] in t
    {
      assert t[j..j + n][..i] == t[j..j + i] && t[j..j + n][..i + 1] == t[j..j + i + 1];
      OneMoreOld(t[j..j + n], i, olds);
      if t'[j + i] != Unused {
        olds := olds + [t'[j + i]];
      }
      t' := t'[j + i := Entry(first + i, true)];
      i := i + 1;
    }
  }

  lemma OneMoreOld(t: seq<Entry>, i: nat, olds: seq<Entry>)
    requires i < |t| && forall k: nat :: TablePaths(olds, k) == TablePaths(t[..i], k)
    ensures forall k: nat :: TablePaths(olds + [t[i]], k) == TablePaths(t[..i + 1], k)
    ensures t[i].host == 0 ==> forall k: nat :: TablePaths(olds, k) == TablePaths(t[..i + 1], k)
  {
    OneMoreFree(t, i);
    forall k: nat
      ensures TablePaths(olds + [t[i]], k) == TablePaths(olds, k) + Refs(t[i], k)
    {
      TablePathsConcat(olds, [t[i]], k);
      TablePathsOne(t[i], k);
    }
  }

  /** The cache after linking: slot holds the new table, the others still agree. */
  lemma CacheAfterLink(img: Img, i: nat, j: nat, first: nat, n: nat, offsets: seq<nat>, tables: seq<seq<Entry>>,
      slot: nat)
    requires ReadyToLink(img, i, j, first, n) && CacheAgrees(img, offsets, tables)
    requires slot < |offsets| && offsets[slot] == img.l1[i].host && |tables[slot]| == L2_SIZE
    ensures var img' := LinkedImg(img, i, j, first, n);
            CacheAgrees(img', offsets, tables[slot := Linked(tables[slot], j, first, n)])
  {
    hide Regions, Exact, Flags, Linked, RootPaths, SnapPaths, Meta;
    var img' := LinkedImg(img, i, j, first, n);
    LinkedIs(img, i, j, first, n);
    forall x | 0 <= x < |offsets| && offsets[x] != 0
      ensures References(img', offsets[x]) >= 1
    {
      LinkKeepsTables(img, i, j, first, n, offsets[x]);
    }
  }

  /** Linking gives up data clusters only: every referenced table stays referenced. */
  lemma LinkKeepsTables(img: Img, i: nat, j: nat, first: nat, n: nat, k: nat)
    requires ReadyToLink(img, i, j, first, n) && k < |img.disk| && img.disk[k].L2? && References(img, k) >= 1
    ensures References(LinkedImg(img, i, j, first, n), k) >= 1
  {
    hide Exact, Flags, Linked;
    EntryForm(img, i);
    var h := img.l1[i].host;
    var olds := Table(img.disk, h)[j..j + n];
    LinkPaths(img, i, j, first, n);
    LinkedIs(img, i, j, first, n);
    EntriesData(img.disk, Table(img.disk, h), j, n, k);
    LinkFrame(img, i, j, first, n);
  }

  lemma EntriesData(d: Disk, t: seq<Entry>, j: nat, n: nat, k: nat)
    requires TableOk(d, t) && j + n <= |t|
    ensures TablePaths(t[j..j + n], k) > 0 ==> k < |d| && d[k].Data?
  {
    if TablePaths(t[j..j + n], k) > 0 {
      var x := TableMet(t[j..j + n], k);
      assert EntryOk(d, t[j + x]);
    }
  }

  lemma LinkFrame(img: Img, i: nat, j: nat, first: nat, n: nat)
    requires ReadyToLink(img, i, j, first, n)
    ensures var img' := LinkedImg(img, i, j, first, n);
            forall k: nat ::
              Meta(img', k) == Meta(img, k) &&
              SnapPaths(img'.disk, img.snapshots, k) == SnapPaths(img.disk, img.snapshots, k)
  {
    hide Exact, Linked, RootPaths, SnapPaths, Meta;
    LinkedIs(img, i, j, first, n);
    var h := img.l1[i].host;
    EntryForm(img, i);
    EntryMet(img, i);
    OnlyActive(img, Run(first, n), h);
    TableWriteFrame(img, LinkedImg(img, i, j, first, n), h);
  }

  lemma EntryMet(img: Img, i: nat)
    requires i < |img.l1| && img.l1[i].host != 0
    ensures RootPaths(img.disk, img.l1, img.l1[i].host) >= 1
  {
    RootPathsAt(img.disk, img.l1, i, img.l1[i].host);
  }

  /** A write inside one cluster of a run, seen from the start of the run. */
  lemma ShiftWritten(d: Disk, d': Disk, first: nat, base: nat, o: nat, buf: seq<Sector>, p: nat)
    requires Mod(base, CLUSTER_SECTORS) == 0 && o + |buf| <= CLUSTER_SECTORS && |buf| > 0
    requires SectorsWritten(d, d', first + Div(base, CLUSTER_SECTORS), o, buf)
    ensures RunSector(d', first, p)
              == if base + o <= p < base + o + |buf| then buf[p - base - o] else RunSector(d, first, p)
  {
    hide SectorOf;
    var q, r := Div(p, CLUSTER_SECTORS), Mod(p, CLUSTER_SECTORS);
    DivModAdd(base, r, CLUSTER_SECTORS);
    if q == Div(base, CLUSTER_SECTORS) {
      DivModUnique(p, base + r, CLUSTER_SECTORS);
      assert RunSector(d', first + q, r) == SectorOf(d', first + q, r);
      assert RunSector(d, first + q, r) == SectorOf(d, first + q, r);
    } else {
      if base + o <= p < base + o + |buf| {
        DivModAdd(base, p - base, CLUSTER_SECTORS);
      }
      assert Reach(o, |buf|) == 1;
      SectorKept(d, d', first + q, r);
    }
  }

  // ----- how many clusters a write reaches

  lemma ReachPositive(o: nat, n: pos)
    ensures Reach(o, n) >= 1
  {
  }

  /** The clusters up to sector end, counted from the one of sector o of it. */
  lemma ReachIsCeil(o: nat, end: pos)
    requires o < end
    ensures Reach(o, end - o) == CeilDiv(end, CLUSTER_SECTORS)
  {
    assert end + CLUSTER_SECTORS - 1 == (end - 1) + CLUSTER_SECTORS;
  }

  /** A part that ends with a cluster, and the rest, reach the clusters that both reach together. */
  lemma ReachSplit(s: nat, n: pos, m: nat)
    requires m > 0 ==> Mod(s + n, CLUSTER_SECTORS) == 0
    ensures var o := Mod(s, CLUSTER_SECTORS);
            Reach(o, n + m) == Reach(o, n) + Reach(Mod(s + n, CLUSTER_SECTORS), m)
  {
    if m > 0 {
      var o := Mod(s, CLUSTER_SECTORS);
      DivModAdd(s, n, CLUSTER_SECTORS);
      DivModAdd(o + n, m - 1, CLUSTER_SECTORS);
      DivWithRest(o + n, CLUSTER_SECTORS);
    }
  }

  /** Clusters that a write of n sectors from s on may take: for each it reaches, one and one for its table. */
  ghost function WriteNeed(s: nat, n: nat): nat { 2 * Reach(Mod(s, CLUSTER_SECTORS), n) }

  /** Writing k whole clusters may take k clusters and k tables. */
  lemma NeedIs(s: nat, k: pos)
    requires Mod(s, CLUSTER_SECTORS) == 0
    ensures WriteNeed(s, k * CLUSTER_SECTORS) == 2 * k
  {
    DivOfProduct(k, CLUSTER_SECTORS);
  }

  lemma NoNeed(s: nat)
    ensures WriteNeed(s, 0) == 0
  {
  }

  /** What one round of a write uses up fits what the round and the rest differ by. */
  lemma ChunkNeed(s: nat, n: pos, all: nat, ok: bool, a: Space, b: Space)
    requires n <= all && (n < all ==> Mod(s + n, CLUSTER_SECTORS) == 0) && (!ok ==> n == all)
    requires Spent(ok, a, b, 1 + Reach(Mod(s, CLUSTER_SECTORS), n))
    ensures WriteNeed(s + n, all - n) <= WriteNeed(s, all)
    ensures Spent(ok, a, b, WriteNeed(s, all) - WriteNeed(s + n, all - n))
    ensures !ok ==> Spent(ok, a, b, WriteNeed(s, all))
  {
    hide Spent, Reach, Mod;
    ReachSplit(s, n, all - n);
    ReachPositive(Mod(s, CLUSTER_SECTORS), n);
    NoNeed(s + n);
    SpentMore(ok, a, b, 1 + Reach(Mod(s, CLUSTER_SECTORS), n), 2 * Reach(Mod(s, CLUSTER_SECTORS), n));
  }

  /** Whole clusters end where a cluster ends. */
  lemma SectorsWhole(c: nat)
    ensures Mod(SectorsIn(c), CLUSTER_SECTORS) == 0
  {
    DivShift(c * CLUSTER_SECTORS, c, CLUSTER_SECTORS);
  }

  lemma EndsCluster(s: nat, n: nat)
    ensures Mod(Mod(s, CLUSTER_SECTORS) + n, CLUSTER_SECTORS) == Mod(s + n, CLUSTER_SECTORS)
  {
    DivModAdd(s, n, CLUSTER_SECTORS);
  }
}
