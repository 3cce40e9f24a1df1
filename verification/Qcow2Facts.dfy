/**
  Facts about images that the operations of the image manager need: each relates the image
  before a step of an operation to the one after it.
 */
module Qcow2Facts {
  import opened Arith
  import opened Qcow2Format
  import opened Qcow2Store
  import opened Qcow2Invariant
  import opened Qcow2Steps
  import opened Qcow2Lookup
  import opened Qcow2Writing
  import opened Qcow2Pass
  import opened Qcow2SnapshotSteps
  import opened Qcow2SnapshotTable
  import opened Qcow2Header

  lemma TakenL1(img0: Img, img1: Img, i: nat, h: nat)
    requires TableTaken(img0, img1, i, h)
    ensures img1.l1 == img0.l1 && img1.l1Offset == img0.l1Offset && img1.blocks == img0.blocks && i < |img0.l1|
  {
  }

  lemma L1Form(img: Img, pend: seq<Entry>, i: nat)
    requires Inv(img, pend) && i < |img.l1|
    ensures (img.l1[i].host == 0 <==> img.l1[i] == Unused) && img.l1[i].host < |img.disk| == |img.rc|
  {
    EntryForm(img, i);
    assert img.rc[0] == References(img, 0) + TablePaths(pend, 0);
    assert FixedRefs(img, 0) > 0;
  }

  lemma TableForm(d: Disk, t: seq<Entry>)
    requires TableOk(d, t)
    ensures |t| == L2_SIZE && forall x :: 0 <= x < |t| && t[x].host == 0 ==> t[x] == Unused
  {
    forall x | 0 <= x < |t| && t[x].host == 0
      ensures t[x] == Unused
    {
      assert EntryOk(d, t[x]);
    }
  }

  /** The image and the cache after a run of clusters was taken. */
  lemma RunTaken(img: Img, img': Img, h: nat, n: nat, offsets: seq<nat>, tables: seq<seq<Entry>>)
    requires Inv(img, []) && Written(img, img', {}) && n > 0 && h + n <= |img.rc|
    requires forall k :: h <= k < h + n ==> img.rc[k] == 0
    requires forall k: nat :: k < |img.rc| ==> img'.rc[k] == img.rc[k] + Within(k, h, n)
    requires CacheAgrees(img, offsets, tables)
    ensures 0 < h && h + n <= |img'.disk| && Inv(img', Run(h, n)) && SnapsKept(img, img') && SameGuest(img, img')
    ensures forall k :: h <= k < h + n ==> References(img', k) == 0
    ensures CacheAgrees(img', offsets, tables)
  {
    hide Exact, Flags, References, SnapsKept, RootPaths;
    AllocStep(img, img', [], h, n);
    assert [] + Run(h, n) == Run(h, n);
    assert Avoids(img.disk, img.l1, {});
    GuestAvoids(img, img', {});
  }

  lemma RunNotBlocks(img: Img, i: nat, j: nat, first: nat, n: nat)
    requires ReadyToLink(img, i, j, first, n)
    ensures first + n <= |img.disk| && forall k :: first <= k < first + n ==> k !in img.blocks
  {
    forall k | first <= k < first + n
      ensures k !in img.blocks
    {
      assert References(img, k) == 0;
    }
  }

  lemma CacheInFresh(img: Img, img': Img, i: nat, j: nat, first: nat, n: nat, offsets: seq<nat>,
      tables: seq<seq<Entry>>)
    requires ReadyToLink(img, i, j, first, n) && CacheAgrees(img, offsets, tables)
    requires SameOutside(img.disk, img'.disk, Span(first, n))
    requires forall k: nat :: References(img', k) == References(img, k)
    ensures CacheAgrees(img', offsets, tables)
  {
    hide Inv, References;
    CacheStays(img, img', offsets, tables, Span(first, n));
  }

  lemma SameKept(img: Img)
    ensures SnapsKept(img, img) && SameGuest(img, img)
  {
  }

  /** A table without the COPIED flag is counted more than once. */
  lemma SharedTable(img: Img, i: nat)
    requires Inv(img, []) && i < |img.l1| && !img.l1[i].copied
    ensures img.l1[i] != Unused ==> img.l1[i].host < |img.rc| && img.rc[img.l1[i].host] >= 2
  {
    EntryForm(img, i);
    if img.l1[i] != Unused {
      var o := img.l1[i].host;
      RootPathsAt(img.disk, img.l1, i, o);
      assert img.rc[o] == References(img, o) + TablePaths([], o);
    }
  }

  lemma CachedTable(img: Img, i: nat, offsets: seq<nat>, tables: seq<seq<Entry>>, slot: nat)
    requires Inv(img, []) && CacheAgrees(img, offsets, tables) && i < |img.l1| && img.l1[i].host != 0
    requires slot < |offsets| && offsets[slot] == img.l1[i].host
    ensures |tables| == L2_CACHE_SIZE && tables[slot] == Table(img.disk, img.l1[i].host)
    ensures TableOk(img.disk, tables[slot])
  {
    EntryForm(img, i);
  }

  lemma RegionsSizes(img: Img)
    requires Regions(img)
    ensures |img.rc| == |img.disk|
  {
  }

  /** What InstallTable finds: a free cluster h, the table that l1[i] shares, and the cluster of the level-1 entry. */
  ghost predicate Installable(img0: Img, img1: Img, i: nat, h: nat) {
    && i < |img0.l1| && 0 < h < |img0.disk| == |img1.disk| && |img1.rc| == |img0.rc| && h < |img0.rc|
    && h !in img0.blocks && References(img0, h) == 0
    && ReadyToSwap(Copied(img0, img1, i, h), i, h)
    && (img0.l1[i].host == 0 <==> img0.l1[i] == Unused)
    && (img0.l1[i] != Unused ==> References(img0, img0.l1[i].host) >= 2)
    && (img0.l1[i] != Unused ==> img0.l1[i].host < |img1.disk| && img1.disk[img0.l1[i].host] == L2(OldTable(img0, i)))
    && var c := img0.l1Offset + Div(i, L2_SIZE);
       c < |img1.disk| && c !in img0.blocks && c != h && IsL1(img1.disk[c])
  }

  /** The state after the allocation in L2Allocate. */
  lemma TakenIsTaken(img0: Img, img1: Img, i: nat, h: nat)
    requires Inv(img0, []) && Written(img0, img1, {}) && i < |img0.l1| && !img0.l1[i].copied && h < |img0.rc|
    requires forall k: nat :: k < |img0.rc| ==> img1.rc[k] == img0.rc[k] - Refs(img0.l1[i], k) + Within(k, h, 1)
    requires img1.rc[h] == 1
    ensures TableTaken(img0, img1, i, h) && Installable(img0, img1, i, h)
  {
    hide Regions, Trees, Exact, Flags, RootPaths, SnapPaths, SnapMeta, TableOk, ReadyToSwap;
    RegionsSizes(img0);
    CopyStep(img0, img1, i, h);
    TakenFree(img0, img1, i, h);
    EntryForm(img0, i);
    ActiveL1Cluster(img0, i);
  }

  /** Level-1 entry i names cluster h alone. */
  function Pointed(l1: seq<Entry>, i: nat, h: nat): seq<Entry> {
    if i < |l1| then l1[i := Entry(h, true)] else l1
  }

  predicate HoldsTable(d: Disk, h: nat, t: seq<Entry>) { h < |d| && d[h] == L2(t) }

  ghost predicate CopyReady(img0: Img, img1: Img, i: nat, h: nat) {
    i < |img0.l1| && h < |img1.disk| && h < |img0.rc| == |img1.rc| && ReadyToSwap(Copied(img0, img1, i, h), i, h)
  }

  /** The references of level-1 entry i to its table are now references to the copy in h. */
  ghost predicate RefsMoved(img0: Img, img2: Img, i: nat, h: nat) {
    && i < |img0.l1|
    && forall k: nat :: References(img2, k) + Refs(img0.l1[i], k) == References(img0, k) + Refs(Entry(h, true), k)
  }

  lemma CowIsCow(img0: Img, img1: Img, img2: Img, i: nat, h: nat)
    requires i < |img0.l1| && h < |img1.disk| && h < |img0.rc| == |img1.rc|
    requires var c := img0.l1Offset + Div(i, L2_SIZE);
             && c < |img1.disk| && c != h && IsL1(img1.disk[c])
             && img2 == img1.(l1 := img0.l1[i := Entry(h, true)],
                              disk := img1.disk[c := L1(img1.disk[c].entries[Mod(i, L2_SIZE) := Entry(h, true)])]
                                                  [h := L2(OldTable(img0, i))])
    requires TableTaken(img0, img1, i, h) && CopyReady(img0, img1, i, h)
    ensures Inv(img2, []) && SnapsKept(img0, img2) && SameGuest(img0, img2) && RefsMoved(img0, img2, i, h)
    ensures SameOutside(img0.disk, img2.disk, {h, img0.l1Offset + Div(i, L2_SIZE)})
  {
    hide Inv, References, SnapsKept, SameGuest, Div, Mod;
    assert img2 == SwappedImg(Copied(img0, img1, i, h), i, h).(rc := img1.rc);
    CowStep(img0, img1, img2, i, h);
  }

  lemma RunRange(img: Img, i: nat, j: nat, first: nat, n: nat)
    requires ReadyToLink(img, i, j, first, n)
    ensures first > 0 && first + n <= |img.disk|
  {
  }

  /** The last, partly written cluster of a run. */
  lemma LastCluster(o: nat, avail: nat)
    requires o < avail && Mod(avail, CLUSTER_SECTORS) > 0
    ensures Div(avail, CLUSTER_SECTORS) + 1 == Reach(o, avail - o)
    ensures avail - Mod(avail, CLUSTER_SECTORS) >= 0
  {
    StartOf(avail, CLUSTER_SECTORS);
    DivWithRest(avail, CLUSTER_SECTORS);
  }

  /** What LinkTable needs to know before it writes. */
  lemma LinkFacts(img: Img, i: nat, j: nat, h: nat, n: nat, olds: seq<Entry>, offsets: seq<nat>,
      tables: seq<seq<Entry>>, slot: nat)
    requires ReadyToLink(img, i, j, h, n) && RunFilled(img.disk, h, n) && n > 0
    requires slot < |offsets| == |tables| && offsets[slot] == img.l1[i].host
    requires tables[slot] == Table(img.disk, img.l1[i].host) && TableOk(img.disk, tables[slot])
    requires forall k: nat :: TablePaths(olds, k) == TablePaths(tables[slot][j..j + n], k)
    requires forall x :: 0 <= x < |olds| ==> olds[x].host != 0 && olds[x] in tables[slot]
    ensures 0 < img.l1[i].host < |img.disk| && img.l1[i].host !in img.blocks
    ensures img.disk[img.l1[i].host] == L2(tables[slot])
    ensures forall x :: 0 <= x < |olds| ==> 0 < olds[x].host < |img.disk|
    ensures forall k: nat :: k < |img.rc| ==> TablePaths(olds, k) <= img.rc[k]
  {
    hide Regions, Flags, RootPaths, Linked, LinkedImg, TablePaths, SnapPaths, SnapMeta;
    EntryForm(img, i);
    EntryMet(img, i);
    MetNotMeta(img, img.l1[i].host);
    LinkStep(img, i, j, h, n);
    forall x | 0 <= x < |olds|
      ensures 0 < olds[x].host < |img.disk|
    {
      var y :| 0 <= y < |tables[slot]| && tables[slot][y] == olds[x];
      assert EntryOk(img.disk, tables[slot][y]);
    }
    forall k: nat | k < |img.rc|
      ensures TablePaths(olds, k) <= img.rc[k]
    {
      var img' := LinkedImg(img, i, j, h, n);
      RcSame(img, i, j, h, n);
      assert img'.rc[k] == References(img', k) + TablePaths(Table(img.disk, img.l1[i].host)[j..j + n], k);
    }
  }

  lemma RcSame(img: Img, i: nat, j: nat, h: nat, n: nat)
    requires ReadyToLink(img, i, j, h, n)
    ensures LinkedImg(img, i, j, h, n).rc == img.rc
  {
  }

  lemma MetNotMeta(img: Img, k: nat)
    requires Regions(img) && Trees(img) && RootPaths(img.disk, img.l1, k) >= 1
    ensures Meta(img, k) == 0
  {
    if Meta(img, k) >= 1 { MetaNotMet(img, k); }
  }

  /** Writing entries j .. j + n - 1 alone makes the table in the file the linked one. */
  lemma LinkedWrite(img: Img, i: nat, j: nat, h: nat, n: nat, t: seq<Entry>)
    requires ReadyToLink(img, i, j, h, n) && img.l1[i].host < |img.disk| && img.disk[img.l1[i].host].L2?
    requires |img.disk[img.l1[i].host].entries| == L2_SIZE && t == Linked(img.disk[img.l1[i].host].entries, j, h, n)
    ensures var u := img.disk[img.l1[i].host].entries; u[..j] + t[j..j + n] + u[j + n..] == t
    ensures LinkedImg(img, i, j, h, n) == img.(disk := img.disk[img.l1[i].host := L2(t)])
  {
    LinkedIs(img, i, j, h, n);
  }

  /** The image and the cache after the replaced clusters were given up. */
  lemma OldsFreed(img: Img, img1: Img, img2: Img, i: nat, j: nat, h: nat, n: nat, olds: seq<Entry>, offsets: seq<nat>,
      tables: seq<seq<Entry>>)
    requires ReadyToLink(img, i, j, h, n) && RunFilled(img.disk, h, n) && n > 0
    requires img1 == LinkedImg(img, i, j, h, n) && Written(img1, img2, {})
    requires |Table(img.disk, img.l1[i].host)| == L2_SIZE
    requires forall k: nat :: TablePaths(olds, k) == TablePaths(Table(img.disk, img.l1[i].host)[j..j + n], k)
    requires forall k: nat :: k < |img1.rc| ==> img2.rc[k] == img1.rc[k] - TablePaths(olds, k)
    requires CacheAgrees(img1, offsets, tables)
    ensures Inv(img2, []) && SnapsKept(img, img2) && SameGuest(img1, img2) && CacheAgrees(img2, offsets, tables)
  {
    hide Regions, Flags, RootPaths, Linked, TablePaths, SnapPaths, SnapMeta, SnapsKept, Meta, LinkedImg, Exact;
    LinkStep(img, i, j, h, n);
    LinkedIs(img, i, j, h, n);
    FreeStep(img1, img2, Table(img.disk, img.l1[i].host)[j..j + n]);
    SnapsKeptTwice(img, img1, img2);
    assert Avoids(img1.disk, img1.l1, {});
    GuestAvoids(img1, img2, {});
    StructureStays(img1, img2, {});
    CacheStays(img1, img2, offsets, tables, {});
  }

  /** The guest disk after head and tail were copied around the written sectors and the run was linked. */
  lemma FilledGuest(img0: Img, img1: Img, img2: Img, img3: Img, s: nat, h: nat, avail: nat, nb: nat,
                    head: seq<Sector>, tail: seq<Sector>, backing: seq<Sector>, x: nat)
    requires var g := Div(s, CLUSTER_SECTORS); ReadyToLink(img2, Div(g, L2_SIZE), Mod(g, L2_SIZE), h, nb)
    requires var g := Div(s, CLUSTER_SECTORS); SameGuest(LinkedImg(img2, Div(g, L2_SIZE), Mod(g, L2_SIZE), h, nb), img3)
    requires SameGuest(img0, img1) && SameGuest(img0, img2)
    requires Mod(s, CLUSTER_SECTORS) < avail && nb == Reach(Mod(s, CLUSTER_SECTORS), avail - Mod(s, CLUSTER_SECTORS))
    requires HeadCopied(img0, img1, s, h, head, backing) && TailCopied(img1, img2, s, h, avail, tail, backing)
    ensures var o, start := Mod(s, CLUSTER_SECTORS), s - Mod(s, CLUSTER_SECTORS);
            Guest(img3, backing, x)
            == if start + o <= x < start + avail then RunSector(img0.disk, h, x - start) else Guest(img0, backing, x)
  {
    hide Inv, LinkedImg, GuestAt, RunSector, Div, Mod, Reach;
    StartOf(s, CLUSTER_SECTORS);
    var g, start := Div(s, CLUSTER_SECTORS), s - Mod(s, CLUSTER_SECTORS);
    LinkGuest(img2, s, h, nb, backing, x);
    Position(s, x);
    InRun(s, avail, x);
    if g <= Div(x, CLUSTER_SECTORS) < g + nb {
      HeadAt(img0, img1, s, h, head, backing, x - start);
      TailAt(img1, img2, s, h, avail, tail, backing, x - start);
    }
  }

  /** The sectors before s in its cluster were copied, if there are any. */
  ghost predicate HeadCopied(img: Img, img': Img, s: nat, h: nat, head: seq<Sector>, backing: seq<Sector>) {
    var o, start := Mod(s, CLUSTER_SECTORS), s - Mod(s, CLUSTER_SECTORS);
    if o == 0 then img' == img
    else |head| == o && SectorsWritten(img.disk, img'.disk, h, 0, head)
         && start >= 0 && forall t :: 0 <= t < |head| ==> head[t] == Guest(img, backing, start + t)
  }

  /** The sectors behind the written ones in the last cluster were copied, if there are any. */
  ghost predicate TailCopied(img: Img, img': Img, s: nat, h: nat, avail: nat, tail: seq<Sector>, backing: seq<Sector>) {
    var r, start := Mod(avail, CLUSTER_SECTORS), s - Mod(s, CLUSTER_SECTORS);
    if r == 0 then img' == img
    else |tail| == CLUSTER_SECTORS - r && SectorsWritten(img.disk, img'.disk, h + Div(avail, CLUSTER_SECTORS), r, tail)
         && start >= 0 && forall t :: 0 <= t < |tail| ==> tail[t] == Guest(img, backing, start + avail + t)
  }

  lemma HeadAt(img: Img, img': Img, s: nat, h: nat, head: seq<Sector>, backing: seq<Sector>, p: nat)
    requires HeadCopied(img, img', s, h, head, backing)
    ensures var o, start := Mod(s, CLUSTER_SECTORS), s - Mod(s, CLUSTER_SECTORS);
            start >= 0 && RunSector(img'.disk, h, p)
                == if p < o then Guest(img, backing, start + p) else RunSector(img.disk, h, p)
  {
    hide RunSector, GuestAt, Div, Mod;
    StartOf(s, CLUSTER_SECTORS);
  }

  lemma TailAt(img: Img, img': Img, s: nat, h: nat, avail: nat, tail: seq<Sector>, backing: seq<Sector>, p: nat)
    requires TailCopied(img, img', s, h, avail, tail, backing)
    ensures var start := s - Mod(s, CLUSTER_SECTORS);
            start >= 0 && RunSector(img'.disk, h, p)
            == if avail <= p && Mod(avail, CLUSTER_SECTORS) > 0 &&
                Div(p, CLUSTER_SECTORS) == Div(avail, CLUSTER_SECTORS)
               then Guest(img, backing, start + p) else RunSector(img.disk, h, p)
  {
    hide RunSector, GuestAt, Div, Mod, SectorsWritten;
    StartOf(s, CLUSTER_SECTORS);
    StartOf(avail, CLUSTER_SECTORS);
    var r := Mod(avail, CLUSTER_SECTORS);
    if r > 0 {
      ShiftWritten(img.disk, img'.disk, h, avail - r, r, tail, p);
      InSameCluster(avail, p);
    }
  }

  /** Which sectors behind avail are in its cluster. */
  lemma InSameCluster(avail: nat, p: nat)
    ensures avail <= p && Div(p, CLUSTER_SECTORS) == Div(avail, CLUSTER_SECTORS)
       <==> avail <= p < avail - Mod(avail, CLUSTER_SECTORS) + CLUSTER_SECTORS
  {
    hide Div, Mod;
    DivModDef(avail, CLUSTER_SECTORS);
    DivModDef(p, CLUSTER_SECTORS);
    var q, q' := Div(avail, CLUSTER_SECTORS), Div(p, CLUSTER_SECTORS);
    if avail <= p { DivMono(avail, p, CLUSTER_SECTORS); }
    if q' >= q + 1 {
      MulMono(CLUSTER_SECTORS, q + 1, q');
    }
  }

  /** Which positions of the run the write covers, and where the last cluster begins. */
  lemma InRun(s: nat, avail: nat, x: nat)
    requires Mod(s, CLUSTER_SECTORS) < avail && s - Mod(s, CLUSTER_SECTORS) >= 0
    ensures var o, start, g := Mod(s, CLUSTER_SECTORS), s - Mod(s, CLUSTER_SECTORS), Div(s, CLUSTER_SECTORS);
            var nb := Reach(o, avail - o);
            && (start <= x < start + avail ==> g <= Div(x, CLUSTER_SECTORS) < g + nb)
            && (x >= start + avail && Div(x, CLUSTER_SECTORS) < g + nb
                ==> Mod(avail, CLUSTER_SECTORS) > 0 && Div(x - start, CLUSTER_SECTORS) == Div(avail, CLUSTER_SECTORS))
  {
    hide Div, Mod;
    Position(s, x);
    var start := s - Mod(s, CLUSTER_SECTORS);
    if start <= x < start + avail {
      DivMono(x - start, avail - 1, CLUSTER_SECTORS);
    } else if x >= start + avail {
      DivMono(avail, x - start, CLUSTER_SECTORS);
      DivWithRest(avail, CLUSTER_SECTORS);
    }
  }

  lemma WithinDisk(x: nat, y: nat)
    requires x <= y
    ensures Div(Div(x, CLUSTER_SECTORS), L2_SIZE) <= Div(Div(y, CLUSTER_SECTORS), L2_SIZE)
  {
    DivMono(x, y, CLUSTER_SECTORS);
    DivMono(Div(x, CLUSTER_SECTORS), Div(y, CLUSTER_SECTORS), L2_SIZE);
  }

  lemma OwnNotBlocks(img: Img, g: nat, c: nat, h: nat)
    requires Inv(img, []) && InPlace(img, g, c, h)
    ensures h + c <= |img.disk| && forall k :: h <= k < h + c ==> k !in img.blocks
  {
    hide Trees, Exact, Flags, SnapPaths, SnapMeta, RootPaths, Maps;
    forall k | h <= k < h + c
      ensures k !in img.blocks
    {
      InPlaceWritable(img, g, c, h, k);
    }
  }

  lemma CacheInPlace(img: Img, img': Img, g: nat, c: nat, h: nat, offsets: seq<nat>, tables: seq<seq<Entry>>)
    requires Inv(img, []) && InPlace(img, g, c, h) && CacheAgrees(img, offsets, tables)
    requires SameOutside(img.disk, img'.disk, Span(h, c)) && forall k: nat :: References(img', k) == References(img, k)
    ensures CacheAgrees(img', offsets, tables)
  {
    hide Inv, References, InPlace;
    forall x | 0 <= x < |offsets| && offsets[x] != 0
      ensures offsets[x] !in Span(h, c)
    {
      if offsets[x] in Span(h, c) { InPlaceWritable(img, g, c, h, offsets[x]); }
    }
    CacheStays(img, img', offsets, tables, Span(h, c));
  }

  lemma WrittenFills(d: Disk, d': Disk, h: nat, o: nat, buf: seq<Sector>, nb: nat)
    requires SectorsWritten(d, d', h, o, buf) && nb == Reach(o, |buf|) && h + nb <= |d|
    ensures RunFilled(d', h, nb)
  {
  }

  lemma UnusedPassed(d: Disk, rc: seq<nat>, addend: int)
    ensures EntryPassed(d, rc, Unused, addend, d, rc, Unused)
  {
  }

  lemma PassStart(d: Disk, rc: seq<nat>, l1: seq<Entry>, addend: int)
    ensures Passed(d, rc, l1, addend, d, rc, [])
  {
    assert l1[..0] == [];
  }

  /** The table at offset is still what it was when its tree has been passed over. */
  lemma RegionAfterPass(d0: Disk, rc0: seq<nat>, l1: seq<Entry>, addend: int, d: Disk, rc: seq<nat>, l1': seq<Entry>,
      offset: nat)
    requires Passed(d0, rc0, l1, addend, d, rc, l1') && |l1'| == |l1| && L1Region(d0, offset, |l1|)
    requires ReadL1(d0, offset, |l1|) == l1
    ensures L1Region(d, offset, |l1|) && ReadL1(d, offset, |l1|) == l1
    ensures |d| == |d0| && forall c :: 0 <= c < |d| && offset <= c < offset + L1Clusters(|l1|) ==> IsL1(d[c])
  {
    hide TreeCounted, TreeFlags, ReadL1, L1Clusters;
    forall c | offset <= c < offset + L1Clusters(|l1|)
      ensures d[c] == d0[c] && d0[c].L1?
    {
      assert d0[c].L1?;
    }
    ReadL1Stays(d0, d, offset, |l1|);
  }

  lemma RegionNotBlocks(d: Disk, rt: seq<nat>, offset: nat, n: nat)
    requires BlocksOk(d, rt) && L1Region(d, offset, n)
    ensures offset + L1Clusters(n) <= |d| && forall c :: offset <= c < offset + L1Clusters(n) ==> c !in rt
  {
    hide L1Clusters;
    forall c | offset <= c < offset + L1Clusters(n)
      ensures c !in rt
    {
      assert d[c].L1?;
    }
  }

  /** A finished pass whose level-1 table is in the file. */
  lemma PassCompleted(d0: Disk, rc0: seq<nat>, l1: seq<Entry>, addend: int, d: Disk, rc: seq<nat>, l1': seq<Entry>,
      offset: nat, d': Disk)
    requires Passed(d0, rc0, l1, addend, d, rc, l1') && |l1'| == |l1| > 0 && |d'| == |d|
    requires L1Region(d, offset, |l1|) && ReadL1(d', offset, |l1|) == l1'
    requires forall c :: 0 <= c < |d| ==> if offset <= c < offset + L1Clusters(|l1|) then IsL1(d'[c]) else d'[c] == d[c]
    ensures RootUpdated(d0, rc0, l1, offset, addend, d', rc, l1')
  {
    hide TreeCounted, ReadL1, L1Clusters;
    assert l1[..|l1|] == l1;
    forall i | 0 <= i < |l1'| && l1'[i].host != 0
      ensures FlagsRight(rc, Table(d', l1'[i].host))
    {
      TableElsewhere(d, d', rc, offset, |l1|, l1'[i].host);
    }
  }

  lemma TableElsewhere(d: Disk, d': Disk, rc: seq<nat>, offset: nat, n: nat, h: nat)
    requires L1Region(d, offset, n) && |d'| == |d| && FlagsRight(rc, Table(d, h))
    requires forall c :: 0 <= c < |d| ==> if offset <= c < offset + L1Clusters(n) then IsL1(d'[c]) else d'[c] == d[c]
    ensures FlagsRight(rc, Table(d', h))
  {
    hide L1Clusters;
    if h < |d| && offset <= h < offset + L1Clusters(n) { assert d[h].L1? && d'[h].L1?; }
  }

  // ----- snapshot names

  /** The index of the first occurrence of x, or -1. */
  function IndexOf(xs: seq<string>, x: string): (i: int)
    ensures -1 <= i < |xs|
  {
    if xs == [] then -1
    else if IndexOf(xs[..|xs| - 1], x) >= 0 then IndexOf(xs[..|xs| - 1], x)
    else if xs[|xs| - 1] == x then |xs| - 1 else -1
  }

  lemma {:induction false} IndexOfNone(xs: seq<string>, x: string)
    requires forall i :: 0 <= i < |xs| ==> xs[i] != x
    ensures IndexOf(xs, x) == -1
  {
    if xs != [] { IndexOfNone(xs[..|xs| - 1], x); }
  }

  lemma {:induction false} IndexOfFirst(xs: seq<string>, x: string, i: nat)
    requires i < |xs| && xs[i] == x && forall y :: 0 <= y < i ==> xs[y] != x
    ensures IndexOf(xs, x) == i
  {
    if i == |xs| - 1 { IndexOfNone(xs[..i], x); } else { IndexOfFirst(xs[..|xs| - 1], x, i); }
  }

  lemma {:induction false} IndexOfIs(xs: seq<string>, x: string)
    ensures var i := IndexOf(xs, x);
            if i < 0 then x !in xs else xs[i] == x && forall y :: 0 <= y < i ==> xs[y] != x
  {
    if xs != [] { IndexOfIs(xs[..|xs| - 1], x); }
  }

  function Ids(sns: seq<Snapshot>): (ids: seq<string>)
    ensures |ids| == |sns| && forall i :: 0 <= i < |sns| ==> ids[i] == sns[i].id
  {
    seq(|sns|, i requires 0 <= i < |sns| => sns[i].id)
  }

  function Names(sns: seq<Snapshot>): (names: seq<string>)
    ensures |names| == |sns| && forall i :: 0 <= i < |sns| ==> names[i] == sns[i].name
  {
    seq(|sns|, i requires 0 <= i < |sns| => sns[i].name)
  }

  /** A key is an id first, a name second. */
  function IndexOfKey(ids: seq<string>, names: seq<string>, key: string): int {
    if IndexOf(ids, key) >= 0 then IndexOf(ids, key) else IndexOf(names, key)
  }

  function KeyOf(sns: seq<Snapshot>, key: string): (i: int)
    ensures -1 <= i < |sns|
  {
    IndexOfKey(Ids(sns), Names(sns), key)
  }

  /** What a key stands for: the first snapshot with that id; if there is none, the first with that name. */
  ghost predicate StandsFor(sns: seq<Snapshot>, key: string, i: int) {
    if exists x :: 0 <= x < |sns| && sns[x].id == key
    then 0 <= i < |sns| && sns[i].id == key && forall x :: 0 <= x < i ==> sns[x].id != key
    else if exists x :: 0 <= x < |sns| && sns[x].name == key
    then 0 <= i < |sns| && sns[i].name == key && forall x :: 0 <= x < i ==> sns[x].name != key
    else i == -1
  }

  lemma KeyIs(sns: seq<Snapshot>, key: string)
    ensures StandsFor(sns, key, KeyOf(sns, key))
  {
    hide IndexOf;
    IndexOfIs(Ids(sns), key);
    IndexOfIs(Names(sns), key);
    if x :| 0 <= x < |sns| && sns[x].id == key { assert Ids(sns)[x] == key; }
    if x :| 0 <= x < |sns| && sns[x].name == key { assert Names(sns)[x] == key; }
  }

  // ----- what the snapshot operations do to the list and the guest disks

  /** The record of a snapshot holds what was given when it was taken. */
  predicate Describes(sn: Snapshot, id: string, name: string, vmStateSize: nat, dateSec: nat, dateNsec: nat,
      vmClockNsec: nat) {
    sn == Snapshot(sn.l1Offset, sn.l1Size, id, name, vmStateSize, dateSec, dateNsec, vmClockNsec)
  }

  /** One more snapshot, with the guest disk of the image; the others as before. */
  ghost predicate SnapshotAdded(img: Img, img': Img, id: string, name: string) {
    && |img'.snapshots| == |img.snapshots| + 1 && img'.snapshots[..|img.snapshots|] == img.snapshots
    && img'.snapshots[|img.snapshots|].id == id && img'.snapshots[|img.snapshots|].name == name
    && (forall n, backing, s: nat :: 0 <= n < |img.snapshots| ==>
        SnapGuest(img', backing, n, s) == SnapGuest(img, backing, n, s))
    && (forall backing, s: nat :: SnapGuest(img', backing, |img.snapshots|, s) == Guest(img, backing, s))
  }

  /** Snapshot i is gone, the others are as before. */
  ghost predicate SnapshotRemoved(img: Img, img': Img, i: nat)
    requires i < |img.snapshots|
  {
    && img'.snapshots == Without(img.snapshots, i)
    && (forall n, backing, s: nat :: 0 <= n < |img'.snapshots| ==>
          SnapGuest(img', backing, n, s) == SnapGuest(img, backing, if n < i then n else n + 1, s))
  }

  /** From the counted tree to the snapshot on the list. */
  lemma SnapshotMade(img: Img, img1: Img, img2: Img, img3: Img, sn: Snapshot)
    requires Inv(img, []) && ActiveUpdated(img, img1, 1) && Written(img1, img2, {}) && |img1.l1| > 0
    requires var n := L1Clusters(|img1.l1|);
             && sn.l1Offset + n <= |img1.rc| == |img2.rc|
             && (forall k :: sn.l1Offset <= k < sn.l1Offset + n ==> img1.rc[k] == 0)
             && (forall k: nat :: k < |img2.rc| ==> img2.rc[k] == img1.rc[k] + Within(k, sn.l1Offset, n))
    requires img3 == img2.(disk := img3.disk) && SameOutside(img2.disk, img3.disk, L1Span(sn.l1Offset, |img1.l1|))
    requires L1Region(img3.disk, sn.l1Offset, |img1.l1|) && ReadL1(img3.disk, sn.l1Offset, |img1.l1|) == img1.l1
    requires sn.l1Size == |img1.l1|
    ensures var img' := img3.(snapshots := img3.snapshots + [sn]);
            Inv(img', []) && SameGuest(img, img') && SnapshotAdded(img, img', sn.id, sn.name)
  {
    hide Inv, Written, SameGuest, GuestAt, RootUpdated, L1Clusters, L1Region, ReadL1, SameOutside, SnapL1;
    L1Positive(|img1.l1|);
    CreateStep(img, img1, img2, img3, sn);
    WrittenSnapshots(img1, img2);
  }

  lemma WrittenSnapshots(img: Img, img': Img)
    requires Written(img, img', {})
    ensures img'.snapshots == img.snapshots
  {
  }

  lemma AddedKept(img: Img, img4: Img, img5: Img, id: string, name: string)
    requires SnapshotAdded(img, img4, id, name) && SameGuest(img, img4) && SnapsKept(img4, img5)
    requires SameGuest(img4, img5)
    ensures SnapshotAdded(img, img5, id, name) && SameGuest(img, img5)
  {
    hide GuestAt, SnapL1;
  }

  lemma RemovedKept(img: Img, img3: Img, img4: Img, i: nat)
    requires i < |img.snapshots| && img3.snapshots == Without(img.snapshots, i)
    requires SnapsKept(img.(snapshots := Without(img.snapshots, i)), img3)
    requires SameGuest(img.(snapshots := Without(img.snapshots, i)), img3)
    requires SnapsKept(img3, img4) && SameGuest(img3, img4)
    ensures SnapshotRemoved(img, img4, i) && SameGuest(img, img4)
  {
    hide GuestAt, SnapL1;
    var a := img.(snapshots := Without(img.snapshots, i));
    forall n, backing, s: nat | 0 <= n < |img4.snapshots|
      ensures SnapGuest(img4, backing, n, s) == SnapGuest(img, backing, if n < i then n else n + 1, s)
    {
      assert SnapGuest(img4, backing, n, s) == SnapGuest(img3, backing, n, s) == SnapGuest(a, backing, n, s);
      assert a.snapshots[n] == img.snapshots[if n < i then n else n + 1];
    }
    forall backing, s: nat
      ensures Guest(img4, backing, s) == Guest(img, backing, s)
    {
      assert Guest(img3, backing, s) == Guest(a, backing, s) == Guest(img, backing, s);
    }
  }

  lemma EmptyAgrees(img: Img, offsets: seq<nat>, tables: seq<seq<Entry>>)
    requires |offsets| == |tables| == L2_CACHE_SIZE && forall x :: 0 <= x < |offsets| ==> offsets[x] == 0
    ensures CacheAgrees(img, offsets, tables)
  {
  }

  /** Clusters that were counted 0 are no refcount blocks. */
  lemma TakenNotBlocks(img: Img, img': Img, pend: seq<Entry>, first: nat, n: nat)
    requires Inv(img, pend) && forall k :: first <= k < first + n ==> k < |img.rc| && img.rc[k] == 0
    requires img'.blocks == img.blocks
    ensures forall k :: first <= k < first + n ==> k !in img'.blocks
  {
    hide Regions, Trees, Flags, RootPaths, SnapPaths, SnapMeta, TablePaths;
    forall k | first <= k < first + n
      ensures k !in img.blocks
    {
      assert img.rc[k] == References(img, k) + TablePaths(pend, k);
    }
  }

  /** Sizes and the level-1 table of an image in order. */
  lemma ImageParts(img: Img, pend: seq<Entry>)
    requires Inv(img, pend)
    ensures |img.rc| == |img.disk| > 0 && |img.l1| > 0 && L1Clusters(|img.l1|) > 0
    ensures L1Region(img.disk, img.l1Offset, |img.l1|) && ReadL1(img.disk, img.l1Offset, |img.l1|) == img.l1
  {
    hide Trees, Exact, Flags, L1Clusters, ReadL1, L1Region;
    RegionParts(img);
    assert FixedRefs(img, 0) > 0;
    L1ClustersIs(|img.l1|);
    CeilDivPositive(|img.l1|, L2_SIZE);
  }

  lemma L1Positive(n: pos)
    ensures L1Clusters(n) > 0
  {
    CeilDivPositive(n, L2_SIZE);
  }

  lemma L1Written(d: Disk, d': Disk, first: nat, n: nat)
    requires |d'| == |d| && first + L1Clusters(n) <= |d|
    requires forall c :: 0 <= c < |d| ==> if first <= c < first + L1Clusters(n) then IsL1(d'[c]) else d'[c] == d[c]
    ensures SameOutside(d, d', L1Span(first, n)) && L1Region(d', first, n)
  {
    hide L1Clusters;
  }

  lemma L1Rewritten(d: Disk, d': Disk, offset: nat, n: nat)
    requires |d'| == |d| && offset + L1Clusters(n) <= |d|
    requires forall c :: 0 <= c < |d| ==> if offset <= c < offset + L1Clusters(n) then IsL1(d'[c]) else d'[c] == d[c]
    ensures AlikeOutside(d, d', L1Span(offset, n)) && L1Region(d', offset, n)
  {
    hide L1Clusters;
  }

  /** After the first pass of going back: the sizes, and the table in the file. */
  lemma GotoFirst(img: Img, img1: Img, i: nat)
    requires Inv(img, []) && i < |img.snapshots| && ActiveUpdated(img, img1, -1)
    ensures |img1.l1| == |img.l1| == img.snapshots[i].l1Size > 0 && |img1.disk| == |img.disk|
    ensures L1Region(img1.disk, img1.l1Offset, |img1.l1|)
  {
    hide Trees, Exact, Flags, L1Clusters, ReadL1, L1Region, L1Span, TreeCounted;
    RegionParts(img);
    assert SnapOk(img, img.snapshots[i]);
    HostsLength(img.l1, img1.l1);
  }

  lemma UpdatedLength(img: Img, img': Img, addend: int)
    requires ActiveUpdated(img, img', addend)
    ensures |img'.l1| == |img.l1|
  {
  }

  lemma UpdatedSizes(img: Img, img1: Img, i: nat)
    requires Inv(img, []) && i < |img.snapshots| && DeleteFirst(img, img1, i)
    ensures |img1.disk| == |img1.rc| == |img.disk| > 0
  {
    hide Trees, Exact, Flags, L1Clusters, ReadL1, L1Region, L1Span;
    ImageParts(img, []);
  }

  lemma NoAddend(d: Disk, rc: seq<nat>, l1: seq<Entry>)
    requires forall k: nat :: k < |rc| ==> rc[k] <= MAX_REFCOUNT
    ensures InBounds(d, rc, l1, 0)
  {
  }

  // ----- what the snapshot operations need

  /** Clusters that a new snapshot takes: its level-1 table and the snapshot table with it. */
  function CreateNeed(l1Size: nat, sns: seq<Snapshot>, id: string, name: string): nat {
    L1Clusters(l1Size) + TableNeed(sns + [Listed(id, name)])
  }

  /** Clusters that a deletion takes: the snapshot table without the snapshot. */
  function DeleteNeed(sns: seq<Snapshot>, key: string): nat {
    if KeyOf(sns, key) < 0 then 0 else TableNeed(Without(sns, KeyOf(sns, key)))
  }

  /** Writing into clusters that were not counted leaves the header in place. */
  lemma HeaderStays(img: Img, img1: Img, img2: Img, first: nat, bs: seq<seq<byte>>)
    requires Inv(img, []) && Written(img, img1, {}) && first + |bs| <= |img.rc|
    requires forall k :: first <= k < first + |bs| ==> img.rc[k] == 0
    requires img2 == img1.(disk := img2.disk) && BlobsWritten(img1.disk, img2.disk, first, bs)
    ensures HeaderInPlace(img2)
  {
    hide Trees, Flags, SnapMeta, SnapPaths, RootPaths, TablePaths, ReadL1, L1Region, L1Clusters;
    assert Meta(img, 0) <= 1 && FixedRefs(img, 0) >= 1;
    assert img.rc[0] == References(img, 0) + TablePaths([], 0);
  }

  /** Clusters were taken (img1), the table written to them (img2) and entered in the header (img3). */
  ghost predicate TablePlaced(img: Img, img1: Img, img2: Img, img3: Img, first: nat, bs: seq<seq<byte>>) {
    && Written(img, img1, {}) && first + |bs| <= |img.rc| == |img.disk| && |img1.rc| == |img.rc|
    && (forall k :: first <= k < first + |bs| ==> img.rc[k] == 0)
    && (forall k: nat :: k < |img.rc| ==> img1.rc[k] == img.rc[k] + Within(k, first, |bs|))
    && img2 == img1.(disk := img2.disk) && BlobsWritten(img1.disk, img2.disk, first, bs)
    && HeaderWritten(img2, img3)
  }

  /** The clusters of the old table can then be given up. */
  lemma OldTableStays(img: Img, img1: Img, img2: Img, img3: Img, first: nat, bs: seq<seq<byte>>)
    requires Inv(img, []) && TablePlaced(img, img1, img2, img3, first, bs)
    ensures img.snapOffset + img.snapClusters <= |img3.disk| == |img3.rc| && first <= |img3.disk|
    ensures forall k :: img.snapOffset <= k < img.snapOffset + img.snapClusters ==> img3.rc[k] >= 1
    ensures img3.snapOffset == img.snapOffset && img3.snapClusters == img.snapClusters
  {
    hide Inv, Written;
    assert Written(img, img1, {}) ==> |img1.disk| == |img.disk| && img1.snapOffset == img.snapOffset
                                      && img1.snapClusters == img.snapClusters by { WrittenSame(img, img1); }
    OldTableCounted(img);
  }

  lemma WrittenSame(img: Img, img1: Img)
    ensures Written(img, img1, {}) ==> |img1.disk| == |img.disk| && img1 == img.(disk := img1.disk, rc := img1.rc)
  {
  }

  /** Giving the old table up completes the move. */
  lemma TableMoved(img: Img, img1: Img, img2: Img, img3: Img, img4: Img, first: nat, bs: seq<seq<byte>>)
    requires Inv(img, []) && TablePlaced(img, img1, img2, img3, first, bs)
    requires Written(img3.(snapOffset := first, snapClusters := |bs|, table := bs), img4, {})
    requires forall k: nat :: k < |img3.rc| ==> img4.rc[k] == img3.rc[k] - Within(k, img.snapOffset, img.snapClusters)
    ensures Inv(img4, []) && SnapsKept(img, img4) && SameGuest(img, img4)
  {
    hide Inv, Written, SnapsKept, SameGuest, BlobsWritten;
    SnapTableStep(img, img1, img2, img3, img4, first, bs);
  }
}
