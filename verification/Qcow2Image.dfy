/**
  The qcow2 driver: level-2 cache, cluster lookup and allocation, reading and writing,
  and snapshots.
 */
module Qcow2Image {
  import opened Arith
  import opened Qcow2Format
  import opened Qcow2Store
  import opened Qcow2Invariant
  import opened Qcow2Steps
  import opened Qcow2Lookup
  import opened Qcow2Writing
  import opened Qcow2Pass
  import opened Qcow2SnapshotSteps
  import opened Qcow2SnapshotIds
  import opened Qcow2SnapshotTable
  import Qcow2SnapshotFile
  import opened Qcow2Header
  import opened Qcow2Facts

  const ENOENT: int := 2

  class Image {
    const st: Store
    const backing: seq<Sector>
    var l1Table: seq<Entry>
    const l1TableOffset: nat
    var l2Cache: seq<seq<Entry>>
    var l2CacheOffsets: seq<nat>
    var l2CacheCounts: seq<nat>
    var snapshots: seq<Snapshot>
    var snapshotsOffset: nat
    var snapshotsSize: nat
    const refcountTableOffset: nat
    const refcountTableClusters: nat
    ghost var header: seq<byte>        // the bytes in cluster 0
    ghost var table: seq<seq<byte>>    // the bytes in the clusters of the snapshot table

    /** Opens an image whose file is consistent: reads the level-1 table and starts with empty caches. */
    constructor (st: Store, backing: seq<Sector>, l1Offset: nat, l1Size: nat,
                 snapshots: seq<Snapshot>, snapshotsOffset: nat, snapshotsSize: nat, rtOffset: nat, rtClusters: nat,
                 ghost header: seq<byte>, ghost table: seq<seq<byte>>)
      requires st.Valid() && !st.exhausted
      requires Inv(Img(st.disk, st.Rc(), ReadL1(st.disk, l1Offset, l1Size), l1Offset, snapshots, snapshotsOffset,
                       CeilDiv(snapshotsSize, CLUSTER_BYTES), rtOffset, rtClusters, st.refcountTable,
                       header, table), [])
      ensures Ready([]) && this.st == st && this.backing == backing && this.snapshots == snapshots
      ensures View() == Img(st.disk, st.Rc(), ReadL1(st.disk, l1Offset, l1Size), l1Offset, snapshots, snapshotsOffset,
                            CeilDiv(snapshotsSize, CLUSTER_BYTES), rtOffset, rtClusters, st.refcountTable,
                            header, table)
    {
      this.st, this.backing, l1TableOffset := st, backing, l1Offset;
      l1Table := ReadL1(st.disk, l1Offset, l1Size);
      this.snapshots, this.snapshotsOffset, this.snapshotsSize := snapshots, snapshotsOffset, snapshotsSize;
      refcountTableOffset, refcountTableClusters := rtOffset, rtClusters;
      this.header, this.table := header, table;
      l2Cache := seq(L2_CACHE_SIZE, _ => seq(L2_SIZE, _ => Unused));
      l2CacheOffsets := seq(L2_CACHE_SIZE, _ => 0);
      l2CacheCounts := seq(L2_CACHE_SIZE, _ => 0);
    }

    ghost function View(): Img
      reads this, st
    {
      Img(st.disk, st.Rc(), l1Table, l1TableOffset, snapshots, snapshotsOffset,
          CeilDiv(snapshotsSize, CLUSTER_BYTES), refcountTableOffset, refcountTableClusters, st.refcountTable,
          header, table)
    }

    ghost predicate HitsOk()
      reads this
    {
      && |l2CacheCounts| == |l2CacheOffsets| == |l2Cache| == L2_CACHE_SIZE
      && forall x :: 0 <= x < |l2CacheCounts| ==> l2CacheCounts[x] < MAX_HITS
    }

    /** The state between operations (pend is empty) and inside them. */
    ghost predicate Ready(pend: seq<Entry>)
      reads this, st
    {
      && st.Valid() && !st.exhausted
      && Inv(View(), pend)
      && HitsOk() && CacheAgrees(View(), l2CacheOffsets, l2Cache)
    }

    method L2CacheReset()
      modifies `l2Cache, `l2CacheOffsets, `l2CacheCounts
      ensures HitsOk() && CacheAgrees(View(), l2CacheOffsets, l2Cache)
      ensures forall x :: 0 <= x < |l2CacheOffsets| ==> l2CacheOffsets[x] == 0
    {
      l2Cache := seq(L2_CACHE_SIZE, _ => seq(L2_SIZE, _ => Unused));
      l2CacheOffsets := seq(L2_CACHE_SIZE, _ => 0);
      l2CacheCounts := seq(L2_CACHE_SIZE, _ => 0);
    }

    /** The first of the least used slots. */
    method L2CacheNewEntry() returns (m: nat)
      requires HitsOk()
      ensures m < L2_CACHE_SIZE
      ensures forall x :: 0 <= x < L2_CACHE_SIZE ==> l2CacheCounts[m] <= l2CacheCounts[x]
      ensures forall x :: 0 <= x < m ==> l2CacheCounts[m] < l2CacheCounts[x]
    {
      m := 0;
      var minCount := MAX_HITS;
      var i := 0;
      while i < L2_CACHE_SIZE
        invariant i <= L2_CACHE_SIZE && m < L2_CACHE_SIZE
        invariant i == 0 ==> minCount == MAX_HITS
        invariant i > 0 ==> m < i && minCount == l2CacheCounts[m]
        invariant forall x :: 0 <= x < i ==> minCount <= l2CacheCounts[x]
        invariant forall x :: 0 <= x < m ==> minCount < l2CacheCounts[x]
      {
        if l2CacheCounts[i] < minCount {
          minCount := l2CacheCounts[i];
          m := i;
        }
        i := i + 1;
      }
    }

    /** Looks a table up in the cache, counting the hit; halves all hit counts when one would overflow. */
    method SeekL2Table(offset: nat) returns (slot: int)
      requires HitsOk()
      modifies `l2CacheCounts
      ensures HitsOk() && -1 <= slot < L2_CACHE_SIZE
      ensures if slot >= 0 then l2CacheOffsets[slot] == offset
              else forall x :: 0 <= x < L2_CACHE_SIZE ==> l2CacheOffsets[x] != offset
      ensures l2CacheCounts == if slot >= 0 then AfterHit(old(l2CacheCounts), slot) else old(l2CacheCounts)
    {
      var i := 0;
      while i < L2_CACHE_SIZE
        invariant 0 <= i <= L2_CACHE_SIZE && l2CacheCounts == old(l2CacheCounts)
        invariant forall x :: 0 <= x < i ==> l2CacheOffsets[x] != offset
      {
        if l2CacheOffsets[i] == offset {
          l2CacheCounts := l2CacheCounts[i := l2CacheCounts[i] + 1];
          if l2CacheCounts[i] == MAX_HITS {
            var counts := l2CacheCounts;
            l2CacheCounts := seq(L2_CACHE_SIZE, x requires 0 <= x < |counts| => counts[x] / 2);
          }
          return i;
        }
        i := i + 1;
      }
      return -1;
    }

    /** Brings a table of the file into the cache and tells its slot. */
    method L2Load(offset: nat) returns (slot: nat)
      requires st.Valid() && HitsOk() && CacheAgrees(View(), l2CacheOffsets, l2Cache)
      requires 0 < offset < |st.disk| && st.disk[offset].L2? && References(View(), offset) >= 1
      modifies `l2Cache, `l2CacheOffsets, `l2CacheCounts
      ensures HitsOk() && CacheAgrees(View(), l2CacheOffsets, l2Cache)
      ensures slot < L2_CACHE_SIZE && l2CacheOffsets[slot] == offset && l2Cache[slot] == st.disk[offset].entries
      ensures offset in old(l2CacheOffsets) ==>
                l2CacheOffsets == old(l2CacheOffsets) && l2CacheCounts == AfterHit(old(l2CacheCounts), slot)
      ensures offset !in old(l2CacheOffsets) ==>
                && l2CacheOffsets == old(l2CacheOffsets)[slot := offset]
                && l2CacheCounts == old(l2CacheCounts)[slot := 1]
                && forall x :: 0 <= x < L2_CACHE_SIZE ==> old(l2CacheCounts)[slot] <= old(l2CacheCounts)[x]
    {
      hide CountsOf, BlocksOk, References, CeilDiv;
      var found := SeekL2Table(offset);
      if found >= 0 { return found; }
      slot := L2CacheNewEntry();
      l2Cache := l2Cache[slot := st.disk[offset].entries];
      l2CacheOffsets := l2CacheOffsets[slot := offset];
      l2CacheCounts := l2CacheCounts[slot := 1];
    }

    // ----- lookup and reading

    /** Loads the level-2 table of level-1 entry i. */
    method LoadTableOf(i: nat, ghost pend: seq<Entry>) returns (slot: nat)
      requires Ready(pend) && i < |l1Table| && l1Table[i] != Unused
      modifies `l2Cache, `l2CacheOffsets, `l2CacheCounts
      ensures Ready(pend) && l1Table[i].host != 0 && l1Table[i].host < |st.disk|
      ensures slot < L2_CACHE_SIZE == |l2Cache| && l2CacheOffsets[slot] == l1Table[i].host
      ensures l2Cache[slot] == Table(st.disk, l1Table[i].host) && TableOk(st.disk, l2Cache[slot])
    {
      assert SubtreeOk(st.disk, l1Table[i]);
      RootPathsAt(st.disk, l1Table, i, l1Table[i].host);
      slot := L2Load(l1Table[i].host);
    }

    /** Host cluster of the sector s (0 for none), and how many of the next num sectors are one run with it. */
    method GetClusterOffset(s: nat, num: nat, ghost pend: seq<Entry>) returns (h: nat, n: nat)
      requires Ready(pend) && num > 0
      modifies `l2Cache, `l2CacheOffsets, `l2CacheCounts
      ensures Ready(pend)
      ensures 0 < n <= num
      ensures Maps(st.disk, l1Table, Div(s, CLUSTER_SECTORS), Reach(Mod(s, CLUSTER_SECTORS), n), h)
      ensures n < num ==> RunEnds(st.disk, l1Table, s, n, h)
    {
      hide Inv, Div, Mod, Maps, Reach, CeilDiv, SectorsIn, ToEndOfTable, CacheAgrees, RunEnds,
           Scanned, CountsOf, BlocksOk;
      var g := Div(s, CLUSTER_SECTORS);
      var indexInCluster := Mod(s, CLUSTER_SECTORS);
      var nbAvailable := ToEndOfTable(s) + indexInCluster;
      var nbNeeded := Min(num + indexInCluster, nbAvailable);
      NeededFacts(s, num, nbNeeded);
      var i, j := Div(g, L2_SIZE), Mod(g, L2_SIZE);
      if i < |l1Table| && l1Table[i] != Unused {
        var slot := LoadTableOf(i, pend);
        var t := l2Cache[slot];
        h := t[j].host;
        var c := ScanTable(t, j, CeilDiv(nbNeeded, CLUSTER_SECTORS));
        RunFound(st.disk, l1Table, s, num, nbNeeded, t, c);
        n := Min(SectorsIn(c), nbNeeded) - indexInCluster;
      } else {
        UnusedRun(st.disk, l1Table, s, nbNeeded);
        EndsWithTable(st.disk, l1Table, s, 0);
        h := 0;
        n := Min(nbAvailable, nbNeeded) - indexInCluster;
      }
    }

    /** The contents of unallocated sectors: the backing file, zeros past its end. */
    method ReadBacking(s: nat, n: nat) returns (buf: seq<Sector>)
      ensures |buf| == n && forall t :: 0 <= t < n ==> buf[t] == Backing(backing, s + t)
      ensures forall t :: 0 <= t < n ==> buf[t] == if s + t < |backing| then backing[s + t] else 0
    {
      var n1 := if s + n <= |backing| then n else if s >= |backing| then 0 else |backing| - s;
      buf := if n1 > 0 then backing[s..s + n1] else [];
      buf := buf + seq(n - n1, _ => 0);
    }

    /** Reads the n sectors of the guest disk from s on. */
    method QcowRead(s: nat, n: nat, ghost pend: seq<Entry>) returns (buf: seq<Sector>)
      requires Ready(pend)
      modifies `l2Cache, `l2CacheOffsets, `l2CacheCounts
      ensures Ready(pend)
      ensures |buf| == n && forall t :: 0 <= t < n ==> buf[t] == Guest(View(), backing, s + t)
    {
      hide Inv, CacheAgrees;
      buf := [];
      while |buf| < n
        invariant Ready(pend) && |buf| <= n
        invariant forall t :: 0 <= t < |buf| ==> buf[t] == Guest(View(), backing, s + t)
      {
        var s1 := s + |buf|;
        var h, m := GetClusterOffset(s1, n - |buf|, pend);
        var part: seq<Sector>;
        if h == 0 {
          part := ReadBacking(s1, m);
        } else {
          part := st.ReadSectors(h, Mod(s1, CLUSTER_SECTORS), m);
        }
        PartRead(View(), backing, s1, m, h, part);
        buf := buf + part;
      }
    }

    // ----- allocation

    /**
      Takes a cluster for the level-2 table of level-1 entry i and fills it with a copy of the table
      that the entry shares, or with unused entries. The caller has given the shared table up;
      img0 is the image before that.
     */
    method L2Allocate(i: nat, ghost img0: Img) returns (ok: bool, slot: nat)
      requires st.Valid() && !st.exhausted && HitsOk() && CacheAgrees(img0, l2CacheOffsets, l2Cache)
      requires Inv(img0, []) && Written(img0, View(), {}) && i < |l1Table| && !l1Table[i].copied
      requires forall k: nat :: k < |img0.rc| ==> View().rc[k] == img0.rc[k] - Refs(img0.l1[i], k)
      modifies st, `l1Table, `l2Cache, `l2CacheOffsets, `l2CacheCounts
      ensures ok <==> !st.exhausted
      ensures ok ==> Ready([]) && SnapsKept(img0, View()) && SameGuest(img0, View())
      ensures ok ==> |l1Table| == |img0.l1| && l1Table[i].host != 0 && l1Table[i].copied
      ensures ok ==> slot < L2_CACHE_SIZE && l2CacheOffsets[slot] == l1Table[i].host
      ensures Spent(ok, old(st.Spare()), st.Spare(), 1)
    {
      hide Inv, CacheAgrees, SnapsKept, SameGuest, CountsOf, BlocksOk, Written, SameButCounts, TableTaken,
           Installable, Spent;
      ghost var freed := View();
      var h;
      ok, h := st.AllocClusters(1);
      if !ok { return ok, 0; }
      ThenCounts(img0, freed, View());
      TakenIsTaken(img0, View(), i, h);
      slot := InstallTable(i, h, img0);
    }

    /** The level-2 table of guest cluster g, one that only the active tree uses: copied or created if need be. */
    method GetClusterTable(g: nat, ghost pend: seq<Entry>) returns (ok: bool, slot: nat)
      requires Ready(pend) && Div(g, L2_SIZE) < |l1Table| && (pend == [] || l1Table[Div(g, L2_SIZE)].copied)
      modifies st, `l1Table, `l2Cache, `l2CacheOffsets, `l2CacheCounts
      ensures ok <==> !st.exhausted
      ensures ok ==>
                Ready(pend) && SnapsKept(old(View()), View()) && SameGuest(old(View()), View()) &&
                |l1Table| == old(|l1Table|)
      ensures ok ==> PrivateTable(Div(g, L2_SIZE), slot)
      ensures old(l1Table[Div(g, L2_SIZE)].copied) ==> ok && View() == old(View()) && st.Spare() == old(st.Spare())
      ensures Spent(ok, old(st.Spare()), st.Spare(), 1)
    {
      hide Inv, CacheAgrees, SnapsKept, SameGuest, Div, CountsOf, BlocksOk, Written, SameButCounts, Spent, Uses;
      var i := Div(g, L2_SIZE);
      ghost var spare := st.Spare();
      ghost var img0 := View();
      L1Form(img0, pend, i);
      ok := true;
      if l1Table[i].copied {
        slot := LoadTableOf(i, pend);
        SameKept(img0);
        SpentNone(spare, st.Spare(), 1);
      } else {
        SharedTable(img0, i);
        if l1Table[i] != Unused {
          st.UpdateRange(l1Table[i].host, 1, -1);
        }
        CountsOnly(img0, View());
        UsesNone(spare, st.Spare());
        ghost var freed := st.Spare();
        ok, slot := L2Allocate(i, img0);
        SpentThen(ok, spare, freed, st.Spare(), 0, 1);
        if ok { CachedTable(View(), i, l2CacheOffsets, l2Cache, slot); }
      }
    }

    /** Slot holds the table of level-1 entry i, which only the active tree uses. */
    ghost predicate PrivateTable(i: nat, slot: nat)
      reads this, st
    {
      && i < |l1Table| && l1Table[i].host != 0 && l1Table[i].copied
      && slot < L2_CACHE_SIZE == |l2Cache| == |l2CacheOffsets| && l2CacheOffsets[slot] == l1Table[i].host
      && l2Cache[slot] == Table(st.disk, l1Table[i].host) && TableOk(st.disk, l2Cache[slot])
    }

    /**
      Where the sectors from s on are to be written: avail sectors, counted from the start of the
      cluster of s, of the clusters from h on. Either nb is 0 and these hold the guest clusters and
      nothing else refers to them, or they are nb new clusters, not yet in the tree.
     */
    ghost predicate Placed(s: nat, h: nat, avail: nat, nb: nat)
      reads this, st
    {
      var o, g := Mod(s, CLUSTER_SECTORS), Div(s, CLUSTER_SECTORS);
      && o < avail
      && (nb == 0 ==> Ready([]) && InPlace(View(), g, Reach(o, avail - o), h))
      && (nb > 0 ==> Ready(Run(h, nb)) && nb == Reach(o, avail - o)
                     && ReadyToLink(View(), Div(g, L2_SIZE), Mod(g, L2_SIZE), h, nb))
    }

    method AllocClusterOffset(s: nat, nEnd: nat) returns (ok: bool, h: nat, avail: nat, nb: nat)
      requires Ready([]) && Mod(s, CLUSTER_SECTORS) < nEnd && Div(Div(s, CLUSTER_SECTORS), L2_SIZE) < |l1Table|
      modifies st, `l1Table, `l2Cache, `l2CacheOffsets, `l2CacheCounts
      ensures ok <==> !st.exhausted
      ensures ok ==> Placed(s, h, avail, nb) && avail <= nEnd
      ensures ok ==> SnapsKept(old(View()), View()) && SameGuest(old(View()), View()) && |l1Table| == old(|l1Table|)
      ensures ok && avail < nEnd ==> Mod(avail, CLUSTER_SECTORS) == 0
      ensures Owned(old(View()), Div(s, CLUSTER_SECTORS)) ==>
                ok && nb == 0 && View() == old(View()) && st.Spare() == old(st.Spare())
      ensures var o := Mod(s, CLUSTER_SECTORS);
              Spent(ok, old(st.Spare()), st.Spare(), 1 + if ok then Reach(o, avail - o) else Reach(o, nEnd - o))
    {
      hide Inv, CacheAgrees, SnapsKept, SameGuest, Div, Mod, CountsOf, BlocksOk, Reach, SectorsIn, CeilDiv,
           ReadyToLink, InPlace, TableOk, Spent, Uses;
      var g, o := Div(s, CLUSTER_SECTORS), Mod(s, CLUSTER_SECTORS);
      ghost var spare := st.Spare();
      ghost var img0 := View();
      var slot;
      ok, slot := GetClusterTable(g, []);
      h, avail, nb := 0, 0, 0;
      ReachIsCeil(o, nEnd);
      if !ok {
        SpentMore(ok, spare, st.Spare(), 1, 1 + Reach(o, nEnd - o));
        return;
      }
      ghost var tabled := st.Spare();
      var t, j := l2Cache[slot], Mod(g, L2_SIZE);
      TableForm(st.disk, t);
      CeilDivPositive(nEnd, CLUSTER_SECTORS);
      var nbClusters := Min(CeilDiv(nEnd, CLUSTER_SECTORS), L2_SIZE - j);
      if t[j].copied {
        var c := CountContiguousClusters(nbClusters, t, j, 0, false);
        h := t[j].host;
        TakeFacts(o, c, nEnd);
        avail := Min(SectorsIn(c), nEnd);
        InPlaceFromTable(View(), g, t, c, h);
        InPlaceLess(View(), g, c, h, Reach(o, avail - o));
        SectorsWhole(c);
        SpentMore(ok, spare, st.Spare(), 1, 1 + Reach(o, avail - o));
      } else {
        nb := CountAllocatable(t, j, nbClusters);
        TakeAll(o, nb, nEnd);
        avail := Min(SectorsIn(nb), nEnd);
        ghost var img1 := View();
        ok, h := TakeRun(Div(g, L2_SIZE), j, nb);
        SectorsWhole(nb);
        SpentLate(ok, spare, tabled, st.Spare(), 1, nb, Reach(o, nEnd - o));
        if ok { KeptTrans(img0, img1, View()); }
      }
    }

    /** Takes nb clusters for entries j .. j + nb - 1 of the private table at level-1 entry i. */
    method TakeRun(i: nat, j: nat, nb: nat) returns (ok: bool, h: nat)
      requires Ready([]) && nb > 0 && i < |l1Table| && l1Table[i].host != 0 && l1Table[i].copied && j + nb <= L2_SIZE
      modifies st
      ensures ok <==> !st.exhausted
      ensures ok ==> Ready(Run(h, nb)) && ReadyToLink(View(), i, j, h, nb)
      ensures ok ==> SnapsKept(old(View()), View()) && SameGuest(old(View()), View())
      ensures Spent(ok, old(st.Spare()), st.Spare(), nb)
    {
      hide Inv, CacheAgrees, SnapsKept, SameGuest, CountsOf, BlocksOk, References, SameButCounts, Written,
           SameOutside, Spent;
      ghost var img0 := View();
      ok, h := st.AllocClusters(nb);
      if ok {
        CountsOnly(img0, View());
        RunTaken(img0, View(), h, nb, l2CacheOffsets, l2Cache);
      }
    }

    /** Copies sectors nStart .. nEnd - 1 of the guest cluster that begins at start into a new cluster h. */
    method CopySectors(start: nat, h: nat, nStart: nat, nEnd: nat, ghost i: nat, ghost j: nat, ghost first: nat,
        ghost n: nat)
        returns (buf: seq<Sector>)
      requires Ready(Run(first, n)) && ReadyToLink(View(), i, j, first, n) && RunFilled(st.disk, first, n)
      requires first <= h < first + n && nStart < nEnd <= CLUSTER_SECTORS
      modifies st`disk, `l2Cache, `l2CacheOffsets, `l2CacheCounts
      ensures Ready(Run(first, n)) && ReadyToLink(View(), i, j, first, n) && RunFilled(st.disk, first, n)
      ensures SnapsKept(old(View()), View()) && SameGuest(old(View()), View())
      ensures |buf| == nEnd - nStart
      ensures forall t :: 0 <= t < |buf| ==> buf[t] == Guest(old(View()), backing, start + nStart + t)
      ensures SectorsWritten(old(st.disk), st.disk, h, nStart, buf) && st.Rc() == old(st.Rc())
    {
      hide Inv, CacheAgrees, SnapsKept, SameGuest, CountsOf, BlocksOk, References, Reach, ReadyToLink, RunFilled,
           GuestAt;
      ghost var img0 := View();
      buf := QcowRead(start + nStart, nEnd - nStart, Run(first, n));
      ReachOne(nStart, |buf|);
      WriteNew(h, nStart, buf, i, j, first, n);
    }

    /** Writes sectors into clusters of the new run. */
    method WriteNew(h: nat, o: nat, buf: seq<Sector>, ghost i: nat, ghost j: nat, ghost first: nat, ghost n: nat)
      requires Ready(Run(first, n)) && ReadyToLink(View(), i, j, first, n)
      requires first <= h && o < CLUSTER_SECTORS && h + Reach(o, |buf|) <= first + n
      modifies st`disk
      ensures Ready(Run(first, n)) && ReadyToLink(View(), i, j, first, n)
      ensures SnapsKept(old(View()), View()) && SameGuest(old(View()), View())
      ensures SectorsWritten(old(st.disk), st.disk, h, o, buf) && st.Rc() == old(st.Rc())
      ensures old(RunFilled(st.disk, first, n)) ==> RunFilled(st.disk, first, n)
    {
      hide Inv, CacheAgrees, SnapsKept, SameGuest, CountsOf, BlocksOk, Reach, RunSector, Meta, SnapPaths, RootPaths;
      ghost var img0 := View();
      RunNotBlocks(img0, i, j, first, n);
      st.WriteSectors(h, o, buf);
      FreshWritten(img0, View(), i, j, first, n, h, o, buf);
      CacheInFresh(img0, View(), i, j, first, n, l2CacheOffsets, l2Cache);
    }

    /** Enters the filled run at guest cluster g and gives up the clusters it replaces. */
    method LinkTable(g: nat, h: nat, nb: nat)
      requires nb > 0 && Ready(Run(h, nb)) && ReadyToLink(View(), Div(g, L2_SIZE), Mod(g, L2_SIZE), h, nb)
      requires RunFilled(st.disk, h, nb)
      modifies st, `l1Table, `l2Cache, `l2CacheOffsets, `l2CacheCounts
      ensures Ready([]) && |l1Table| == old(|l1Table|) && SnapsKept(old(View()), View())
      ensures SameGuest(LinkedImg(old(View()), Div(g, L2_SIZE), Mod(g, L2_SIZE), h, nb), View())
      ensures Uses(old(st.Spare()), st.Spare(), 0)
    {
      hide Uses, Spent, Inv, CacheAgrees, SnapsKept, SameGuest, CountsOf, BlocksOk, Div, Mod, TableOk, RunFilled,
           Linked, SameButCounts, SameOutside, Written, LinkedImg;
      ghost var img0 := View();
      var i, j := Div(g, L2_SIZE), Mod(g, L2_SIZE);
      var _, slot := GetClusterTable(g, Run(h, nb));
      TableForm(st.disk, l2Cache[slot]);
      var t, olds := BuildLink(l2Cache[slot], j, h, nb);
      LinkFacts(img0, i, j, h, nb, olds, l2CacheOffsets, l2Cache, slot);
      CacheAfterLink(img0, i, j, h, nb, l2CacheOffsets, l2Cache, slot);
      l2Cache := l2Cache[slot := t];
      st.WriteL2Entries(l1Table[i].host, t, j, nb);
      LinkedWrite(img0, i, j, h, nb, t);
      ghost var img1 := View();
      st.FreeEntries(olds);
      CountsOnly(img1, View());
      OldsFreed(img0, img1, View(), i, j, h, nb, olds, l2CacheOffsets, l2Cache);
      UsesNone(old(st.Spare()), st.Spare());
    }

    /** Completes a write to new clusters: their unwritten sectors are copied, then they enter the tree. */
    method AllocClusterLinkL2(s: nat, h: nat, avail: nat, nb: nat)
      requires nb > 0 && Placed(s, h, avail, nb) && RunFilled(st.disk, h, nb)
      modifies st, `l1Table, `l2Cache, `l2CacheOffsets, `l2CacheCounts
      ensures Ready([]) && |l1Table| == old(|l1Table|) && SnapsKept(old(View()), View())
      ensures forall x: nat :: Guest(View(), backing, x)
                == (var o, start := Mod(s, CLUSTER_SECTORS), s - Mod(s, CLUSTER_SECTORS);
                    if start + o <= x < start + avail then RunSector(old(st.disk), h, x - start)
                    else Guest(old(View()), backing, x))
      ensures Uses(old(st.Spare()), st.Spare(), 0)
    {
      hide Uses, Inv, CacheAgrees, SnapsKept, SameGuest, CountsOf, BlocksOk, Reach, ReadyToLink, RunFilled, GuestAt,
           SectorsWritten, LinkedImg, RunSector, Div, Mod;
      ghost var img0 := View();
      var o, g := Mod(s, CLUSTER_SECTORS), Div(s, CLUSTER_SECTORS);
      ghost var i, j := Div(g, L2_SIZE), Mod(g, L2_SIZE);
      StartOf(s, CLUSTER_SECTORS);
      var start := s - o;
      SameKept(img0);
      var head, tail: seq<Sector> := [], [];
      RunRange(img0, i, j, h, nb);
      if o > 0 {
        head := CopySectors(start, h, 0, o, i, j, h, nb);
      }
      ghost var img1 := View();
      var r := Mod(avail, CLUSTER_SECTORS);
      if r > 0 {
        LastCluster(o, avail);
        tail := CopySectors(start + (avail - r), h + Div(avail, CLUSTER_SECTORS), r, CLUSTER_SECTORS, i, j, h, nb);
        KeptTrans(img0, img1, View());
      }
      ghost var img2 := View();
      LinkTable(g, h, nb);
      SnapsKeptTwice(img0, img2, View());
      forall x: nat
        ensures Guest(View(), backing, x)
             == if start + o <= x < start + avail then RunSector(img0.disk, h, x - start) else Guest(img0, backing, x)
      {
        FilledGuest(img0, img1, img2, View(), s, h, avail, nb, head, tail, backing, x);
      }
    }

    /** Writes sectors into clusters that only the active tree refers to. */
    method WriteOwn(s: nat, h: nat, buf: seq<Sector>)
      requires Ready([]) && InPlace(View(), Div(s, CLUSTER_SECTORS), Reach(Mod(s, CLUSTER_SECTORS), |buf|), h)
      modifies st`disk
      ensures Ready([]) && SnapsKept(old(View()), View()) && st.Rc() == old(st.Rc())
      ensures SameTables(old(View()), View())
      ensures forall x: nat ::
                Guest(View(), backing, x) == if s <= x < s + |buf| then buf[x - s] else Guest(old(View()), backing, x)
    {
      hide Inv, CacheAgrees, SnapsKept, CountsOf, BlocksOk, Reach, RunSector, InPlace, GuestAt, Div, Mod, Written,
           SameTables;
      ghost var img0 := View();
      var o := Mod(s, CLUSTER_SECTORS);
      ghost var c := Reach(o, |buf|);
      OwnNotBlocks(img0, Div(s, CLUSTER_SECTORS), c, h);
      st.WriteSectors(h, o, buf);
      InPlaceWritten(img0, View(), Div(s, CLUSTER_SECTORS), c, h, o, buf);
      InPlaceTables(img0, View(), Div(s, CLUSTER_SECTORS), c, h, o, buf);
      CacheInPlace(img0, View(), Div(s, CLUSTER_SECTORS), c, h, l2CacheOffsets, l2Cache);
      forall x: nat
        ensures Guest(View(), backing, x) == if s <= x < s + |buf| then buf[x - s] else Guest(img0, backing, x)
      {
        InPlaceGuest(img0, View(), s, c, h, buf, backing, x);
      }
    }

    /** One round of a write: some of the sectors, at least one. */
    method WriteChunk(s: nat, buf: seq<Sector>) returns (ok: bool, n: nat)
      requires Ready([]) && |buf| > 0 && Div(Div(s, CLUSTER_SECTORS), L2_SIZE) < |l1Table|
      modifies st, `l1Table, `l2Cache, `l2CacheOffsets, `l2CacheCounts
      ensures ok <==> !st.exhausted
      ensures ok ==> Ready([]) && |l1Table| == old(|l1Table|) && SnapsKept(old(View()), View()) && 0 < n <= |buf|
      ensures ok ==>
                forall x: nat ::
                  Guest(View(), backing, x)
                  == if s <= x < s + n then buf[x - s] else Guest(old(View()), backing, x)
      ensures ok && n < |buf| ==> Mod(s + n, CLUSTER_SECTORS) == 0
      ensures Owned(old(View()), Div(s, CLUSTER_SECTORS)) ==>
                ok && SameTables(old(View()), View()) && st.Spare() == old(st.Spare())
      ensures var o := Mod(s, CLUSTER_SECTORS);
              Spent(ok, old(st.Spare()), st.Spare(), 1 + if ok then Reach(o, n) else Reach(o, |buf|))
    {
      hide Inv, CacheAgrees, SnapsKept, CountsOf, BlocksOk, Reach, ReadyToLink, InPlace, GuestAt, Div, Mod,
           RunSector, Spent, Uses, Owned, SameTables;
      ghost var img0, spare := View(), st.Spare();
      var h, avail, nb;
      var o := Mod(s, CLUSTER_SECTORS);
      ok, h, avail, nb := AllocClusterOffset(s, o + |buf|);
      n := 0;
      if !ok { return; }
      n := avail - o;
      var part := buf[..n];
      ghost var img1, placed := View(), st.Spare();
      StartOf(s, CLUSTER_SECTORS);
      EndsCluster(s, n);
      if nb == 0 {
        WriteOwn(s, h, part);
        SnapsKeptTwice(img0, img1, View());
      } else {
        ghost var g := Div(s, CLUSTER_SECTORS);
        RunRange(img1, Div(g, L2_SIZE), Mod(g, L2_SIZE), h, nb);
        WriteNew(h, o, part, Div(g, L2_SIZE), Mod(g, L2_SIZE), h, nb);
        WrittenFills(img1.disk, st.disk, h, o, part, nb);
        KeptTrans(img0, img1, View());
        ghost var img2 := View();
        AllocClusterLinkL2(s, h, avail, nb);
        SnapsKeptTwice(img0, img2, View());
        SpentBefore(ok, spare, placed, st.Spare(), 1 + Reach(o, n));
      }
    }

    /** Writes the sectors of buf to the guest disk from s on: those sectors change and no others. */
    method QcowWrite(s: nat, buf: seq<Sector>) returns (ok: bool)
      requires Ready([]) && (|buf| > 0 ==> Div(Div(s + |buf| - 1, CLUSTER_SECTORS), L2_SIZE) < |l1Table|)
      modifies st, `l1Table, `l2Cache, `l2CacheOffsets, `l2CacheCounts
      ensures ok <==> !st.exhausted
      ensures ok ==> Ready([]) && |l1Table| == old(|l1Table|) && SnapsKept(old(View()), View())
      ensures ok ==>
                forall x: nat ::
                  Guest(View(), backing, x)
                  == if s <= x < s + |buf| then buf[x - s] else Guest(old(View()), backing, x)
      ensures Spent(ok, old(st.Spare()), st.Spare(), WriteNeed(s, |buf|))
      ensures AllOwned(old(View()), s, |buf|) ==>
                ok && SameTables(old(View()), View()) && st.Spare() == old(st.Spare())
    {
      hide Inv, CacheAgrees, SnapsKept, CountsOf, BlocksOk, GuestAt, Div, Mod, Spent, Uses, WriteNeed, Reach,
           SameTables, AllOwned;
      ghost var img0, spare := View(), st.Spare();
      SameKept(img0);
      SameTablesSelf(img0);
      ok := true;
      var done := 0;
      UsesNone(spare, spare);
      while done < |buf|
        invariant done <= |buf| && Ready([]) && |l1Table| == old(|l1Table|) && SnapsKept(img0, View()) && ok
        invariant forall x: nat ::
                    Guest(View(), backing, x) == if s <= x < s + done then buf[x - s] else Guest(img0, backing, x)
        invariant WriteNeed(s + done, |buf| - done) <= WriteNeed(s, |buf|)
        invariant Uses(spare, st.Spare(), WriteNeed(s, |buf|) - WriteNeed(s + done, |buf| - done))
        invariant AllOwned(img0, s, |buf|) ==> SameTables(img0, View()) && st.Spare() == spare
      {
        ghost var img1, spare1 := View(), st.Spare();
        if AllOwned(img0, s, |buf|) { StillOwned(img0, img1, s, |buf|, done); }
        WithinDisk(s + done, s + |buf| - 1);
        var n;
        ok, n := WriteChunk(s + done, buf[done..]);
        ChunkNeed(s + done, if ok then n else |buf| - done, |buf| - done, ok, spare1, st.Spare());
        SpentPart(ok, spare, spare1, st.Spare(), WriteNeed(s, |buf|), WriteNeed(s + done, |buf| - done),
                  if ok then WriteNeed(s + done + n, |buf| - done - n) else 0);
        if !ok { return; }
        SnapsKeptTwice(img0, img1, View());
        if AllOwned(img0, s, |buf|) { SameTablesTwice(img0, img1, View()); }
        done := done + n;
      }
      NoNeed(s + done);
      SpentUses(spare, st.Spare(), WriteNeed(s, |buf|));
    }

    /** Writes the level-1 entry and the new table, and caches the table. */
    method InstallTable(i: nat, h: nat, ghost img0: Img) returns (slot: nat)
      requires st.Valid() && !st.exhausted && HitsOk() && CacheAgrees(img0, l2CacheOffsets, l2Cache)
      requires Inv(img0, []) && TableTaken(img0, View(), i, h) && Installable(img0, View(), i, h)
      modifies st`disk, `l1Table, `l2Cache, `l2CacheOffsets, `l2CacheCounts
      ensures Ready([]) && SnapsKept(img0, View()) && SameGuest(img0, View())
      ensures |l1Table| == |img0.l1| && l1Table[i].host != 0 && l1Table[i].copied
      ensures slot < L2_CACHE_SIZE && l2CacheOffsets[slot] == l1Table[i].host && st.Rc() == old(st.Rc())
      ensures |old(l2CacheCounts)| == L2_CACHE_SIZE && l2CacheCounts == old(l2CacheCounts)[slot := 1]
    {
      hide Inv, CacheAgrees, Div, Mod, SnapsKept, SameGuest, References, CountsOf, BlocksOk, SameOutside, TableTaken,
           ReadyToSwap;
      var t := StoreTable(i, h, img0);
      slot := L2CacheNewEntry();
      CacheAfterCow(img0, View(), i, h, l2CacheOffsets, l2Cache, slot);
      l2Cache := l2Cache[slot := t];
      l2CacheOffsets := l2CacheOffsets[slot := h];
      l2CacheCounts := l2CacheCounts[slot := 1];
    }

    /** Points level-1 entry i at cluster h, in memory and in the file, and writes the old table there. */
    method StoreTable(i: nat, h: nat, ghost img0: Img) returns (t: seq<Entry>)
      requires i < |img0.l1| && st.Valid() && TableTaken(img0, View(), i, h) && Installable(img0, View(), i, h)
      modifies st`disk, `l1Table
      ensures st.Valid() && Inv(View(), []) && SnapsKept(img0, View()) && SameGuest(img0, View())
      ensures st.Rc() == old(st.Rc())
      ensures l1Table == Pointed(img0.l1, i, h) && HoldsTable(st.disk, h, t)
      ensures RefsMoved(img0, View(), i, h)
      ensures SameOutside(img0.disk, st.disk, {h, img0.l1Offset + Div(i, L2_SIZE)})
    {
      hide Inv, Div, Mod, SnapsKept, SameGuest, References, CountsOf, BlocksOk, SameOutside, TableTaken, ReadyToSwap;
      ghost var img1 := View();
      TakenL1(img0, img1, i, h);
      t := if l1Table[i] == Unused then seq(L2_SIZE, _ => Unused) else st.disk[l1Table[i].host].entries;
      st.WriteL1Entry(l1TableOffset + Div(i, L2_SIZE), Mod(i, L2_SIZE), Entry(h, true));
      l1Table := l1Table[i := Entry(h, true)];
      st.WriteL2(h, t);
      CowIsCow(img0, img1, View(), i, h);
    }

    // ----- snapshots

    /** One level-1 entry of a pass: its table, then the entry itself. */
    method PassEntry(e: Entry, addend: int) returns (e': Entry)
      requires st.Valid() && OneEntry(st.disk, e) && addend in {-1, 0, 1}
      requires forall k: nat :: k < |st.disk| ==>
                 0 <= st.Rc()[k] + Scaled(addend, EntryPaths(st.disk, e, k)) <= MAX_REFCOUNT
      modifies st`disk, st`refcountBlockCache, st`refcountBlockCacheOffset, st`freeClusterIndex
      ensures st.Valid() && |st.disk| == |old(st.disk)|
      ensures EntryPassed(old(st.disk), old(st.Rc()), e, addend, st.disk, st.Rc(), e')
      ensures st.freeClusterIndex <= old(st.freeClusterIndex)
    {
      hide CountsOf, TablePaths, EntryPaths, TableOk, Div, Mod;
      ghost var d, rc := st.disk, st.Rc();
      if e == Unused {
        UnusedPassed(d, rc, addend);
        return e;
      }
      EntryFacts(d, rc, e, addend);
      var t, modified := st.UpdateTableRefcounts(st.disk[e.host].entries, addend);
      ghost var rc1 := st.Rc();
      if modified {
        st.WriteL2(e.host, t);
      }
      assert SameOutside(d, st.disk, {e.host}) && st.disk[e.host] == L2(t);
      e' := st.TouchEntry(e, addend);
      EntryDone(d, rc, e, addend, t, rc1, st.disk, st.Rc(), e');
    }

    /** A pass over all entries of a level-1 table. */
    method PassTree(l1: seq<Entry>, addend: int) returns (l1': seq<Entry>, modified: bool)
      requires st.Valid() && GoodTree(st.disk, l1) && InBounds(st.disk, st.Rc(), l1, addend) && |st.disk| > 0
      requires addend in {-1, 0, 1}
      modifies st`disk, st`refcountBlockCache, st`refcountBlockCacheOffset, st`freeClusterIndex
      ensures st.Valid() && |l1'| == |l1| && modified == (l1' != l1)
      ensures Passed(old(st.disk), old(st.Rc()), l1, addend, st.disk, st.Rc(), l1')
      ensures st.freeClusterIndex <= old(st.freeClusterIndex)
    {
      hide CountsOf, BlocksOk, GoodTree, Passed, EntryPassed, OneEntry, EntryPaths, RootPaths, InBounds;
      ghost var d0, rc0 := st.disk, st.Rc();
      l1', modified := [], false;
      PassStart(d0, rc0, l1, addend);
      while |l1'| < |l1|
        invariant |l1'| <= |l1| && st.Valid() && |st.disk| == |d0| && st.freeClusterIndex <= old(st.freeClusterIndex)
        invariant Passed(d0, rc0, l1, addend, st.disk, st.Rc(), l1') && modified == (l1' != l1[..|l1'|])
      {
        ghost var d, rc := st.disk, st.Rc();
        NextEntry(d0, rc0, l1, addend, d, rc, l1');
        var e' := PassEntry(l1[|l1'|], addend);
        PassStep(d0, rc0, l1, addend, d, rc, l1', st.disk, st.Rc(), e');
        if e' != l1[|l1'|] {
          modified := true;
        }
        l1' := l1' + [e'];
      }
    }

    /**
      Adds to the counts of everything under the level-1 table at offset and makes its flags right.
      The active table is kept in memory, any other is read from the file; it is written back when
      one of its entries changed.
     */
    method UpdateSnapshotRefcount(offset: nat, l1Size: nat, addend: int)
      requires st.Valid() && addend in {-1, 0, 1} && l1Size > 0 && |st.disk| > 0
      requires offset == l1TableOffset ==> l1Table == ReadL1(st.disk, offset, l1Size)
      requires var root := ReadL1(st.disk, offset, l1Size);
               GoodTree(st.disk, root) && InBounds(st.disk, st.Rc(), root, addend)
      requires L1Region(st.disk, offset, l1Size)
      modifies st`disk, st`refcountBlockCache, st`refcountBlockCacheOffset, st`freeClusterIndex,
               `l1Table, `l2Cache, `l2CacheOffsets, `l2CacheCounts
      ensures st.Valid() && HitsOk() && CacheEmpty() && st.freeClusterIndex <= old(st.freeClusterIndex)
      ensures RootUpdated(old(st.disk), old(st.Rc()), old(ReadL1(st.disk, offset, l1Size)), offset, addend,
                          st.disk, st.Rc(), ReadL1(st.disk, offset, l1Size))
      ensures l1Table == if offset == l1TableOffset then ReadL1(st.disk, offset, l1Size) else old(l1Table)
    {
      hide CountsOf, GoodTree, Passed, RootPaths, InBounds, ReadL1, L1Clusters, L1Region, RootUpdated;
      L2CacheReset();
      ghost var d0, rc0 := st.disk, st.Rc();
      var l1 := if offset == l1TableOffset then l1Table else ReadL1(st.disk, offset, l1Size);
      var l1', modified := PassTree(l1, addend);
      ghost var d1 := st.disk;
      RegionAfterPass(d0, rc0, l1, addend, d1, st.Rc(), l1', offset);
      if modified {
        RegionNotBlocks(d1, st.refcountTable, offset, |l1'|);
        st.WriteL1(offset, l1');
      }
      if offset == l1TableOffset {
        l1Table := l1';
      }
      PassCompleted(d0, rc0, l1, addend, d1, st.Rc(), l1', offset, st.disk);
    }

    /** No slot of the level-2 cache is in use. */
    ghost predicate CacheEmpty()
      reads this
    {
      |l2CacheOffsets| == L2_CACHE_SIZE && forall x :: 0 <= x < |l2CacheOffsets| ==> l2CacheOffsets[x] == 0
    }

    /** The index of the first snapshot with this id, or -1. */
    method FindSnapshotById(id: string) returns (i: int)
      ensures i == IndexOf(Ids(snapshots), id)
      ensures if i < 0 then forall x :: 0 <= x < |snapshots| ==> snapshots[x].id != id
              else snapshots[i].id == id && forall x :: 0 <= x < i ==> snapshots[x].id != id
    {
      i := 0;
      while i < |snapshots|
        invariant 0 <= i <= |snapshots| && forall x :: 0 <= x < i ==> snapshots[x].id != id
      {
        if snapshots[i].id == id {
          IndexOfFirst(Ids(snapshots), id, i);
          return i;
        }
        i := i + 1;
      }
      IndexOfNone(Ids(snapshots), id);
      return -1;
    }

    /** The index of the snapshot with this id, else of the first with this name, or -1. */
    method FindSnapshotByIdOrName(key: string) returns (i: int)
      ensures i == KeyOf(snapshots, key) && StandsFor(snapshots, key, i)
    {
      KeyIs(snapshots, key);
      i := FindSnapshotById(key);
      if i >= 0 { return i; }
      i := 0;
      while i < |snapshots|
        invariant 0 <= i <= |snapshots| && forall x :: 0 <= x < i ==> snapshots[x].name != key
      {
        if snapshots[i].name == key {
          IndexOfFirst(Names(snapshots), key, i);
          return i;
        }
        i := i + 1;
      }
      IndexOfNone(Names(snapshots), key);
      return -1;
    }

    /** Writes the snapshot list to new clusters, enters it in the header and gives the old clusters up. */
    method WriteSnapshots() returns (ok: bool)
      requires st.Valid() && !st.exhausted && Inv(View(), []) && HitsOk() && CacheEmpty()
      modifies st, `snapshotsOffset, `snapshotsSize, `header, `table
      ensures ok <==> !st.exhausted
      ensures ok ==> Ready([]) && SnapsKept(old(View()), View()) && SameGuest(old(View()), View())
      ensures ok && HeaderRight(old(View())) && Sized(View()) ==> Filed(View())
      ensures Spent(ok, old(st.Spare()), st.Spare(), TableNeed(snapshots))
    {
      hide Inv, SnapsKept, SameGuest, CountsOf, BlocksOk, SameButCounts, Written, CeilDiv, TableSize, TableEnd,
           CacheAgrees, Spent, Uses, Filed, HeaderRight, Sized, Flat, Entered, TablePlaced, AllInBytes,
           Qcow2SnapshotFile.Holds;
      ghost var img, spare := View(), st.Spare();
      var size := ComputeTableSize(snapshots);
      var bs := BuildTable(snapshots, CeilDiv(size, CLUSTER_BYTES));
      var first;
      ghost var img1, img2;
      ok, first, img1, img2 := NewTable(bs);
      if !ok { return; }
      ghost var placed := st.Spare();
      ReplaceTable(first, size, bs, img, img1, img2);
      SpentBefore(ok, spare, placed, st.Spare(), |bs|);
      if HeaderRight(img) && Sized(View()) { TableFiled(img, View()); }
    }

    /** Gives the clusters of the old table up; the new one was placed since img. */
    method ReplaceTable(first: nat, size: nat, bs: seq<seq<byte>>, ghost img: Img, ghost img1: Img, ghost img2: Img)
      requires st.Valid() && !st.exhausted && HitsOk() && CacheEmpty() && |bs| == CeilDiv(size, CLUSTER_BYTES)
      requires Inv(img, []) && TablePlaced(img, img1, img2, View(), first, bs)
      modifies st`disk, st`refcountBlockCache, st`refcountBlockCacheOffset, st`freeClusterIndex,
               `snapshotsOffset, `snapshotsSize, `table
      ensures Ready([]) && SnapsKept(img, View()) && SameGuest(img, View())
      ensures snapshotsOffset == first <= |st.disk| && snapshotsSize == size && table == bs
      ensures Uses(old(st.Spare()), st.Spare(), 0)
    {
      hide Inv, SnapsKept, SameGuest, CountsOf, BlocksOk, SameButCounts, Written, CeilDiv, CacheAgrees, Uses,
           TablePlaced;
      ghost var img3 := View();
      OldTableStays(img, img1, img2, img3, first, bs);
      st.UpdateRange(snapshotsOffset, CeilDiv(snapshotsSize, CLUSTER_BYTES), -1);
      snapshotsOffset, snapshotsSize, table := first, size, bs;
      CountsOnly(img3.(snapOffset := first, snapClusters := |bs|, table := bs), View());
      TableMoved(img, img1, img2, img3, View(), first, bs);
      EmptyAgrees(View(), l2CacheOffsets, l2Cache);
      UsesNone(old(st.Spare()), st.Spare());
    }

    /** The bytes of the table get clusters and a place in the header; img1 and img2 are the images in between. */
    method NewTable(bs: seq<seq<byte>>) returns (ok: bool, first: nat, ghost img1: Img, ghost img2: Img)
      requires st.Valid() && !st.exhausted && Inv(View(), [])
      modifies st, `header
      ensures st.Valid() && ok == !st.exhausted && Spent(ok, old(st.Spare()), st.Spare(), |bs|)
      ensures ok ==> TablePlaced(old(View()), img1, img2, View(), first, bs)
      ensures ok ==> QCOW_HEADER_SIZE <= |old(header)|
      ensures ok ==> header == Entered(old(header), |snapshots|, first * CLUSTER_BYTES)
    {
      hide Inv, CountsOf, BlocksOk, Written, CeilDiv, Spent, Entered, BlobsWritten;
      ghost var img := View();
      ok, first, img1 := PlaceTable(bs);
      img2 := View();
      if !ok { return; }
      WrittenSame(img, img1);
      EnterTable(first);
    }

    /** Takes clusters and writes the bytes of the table into them; img1 is the image in between. */
    method PlaceTable(bs: seq<seq<byte>>) returns (ok: bool, first: nat, ghost img1: Img)
      requires st.Valid() && !st.exhausted && Inv(View(), [])
      modifies st
      ensures st.Valid() && ok == !st.exhausted
      ensures ok ==> Written(old(View()), img1, {}) && first + |bs| <= |old(st.Rc())|
      ensures ok ==> forall k :: first <= k < first + |bs| ==> old(st.Rc())[k] == 0
      ensures ok ==> |img1.rc| == |old(st.Rc())| && forall k: nat ::
                k < |img1.rc| ==> img1.rc[k] == old(st.Rc())[k] + Within(k, first, |bs|)
      ensures ok ==> View() == img1.(disk := st.disk) && BlobsWritten(img1.disk, st.disk, first, bs)
      ensures ok ==> HeaderInPlace(View())
      ensures Spent(ok, old(st.Spare()), st.Spare(), |bs|)
    {
      hide Inv, CountsOf, BlocksOk, SameButCounts, Written, References, CeilDiv, Taken, Spent;
      ghost var img := View();
      ok, first := st.AllocClusters(|bs|);
      img1 := View();
      if !ok { return; }
      CountsOnly(img, img1);
      TakenNotBlocks(img, img1, [], first, |bs|);
      st.WriteBlobs(first, bs);
      HeaderStays(img, img1, View(), first, bs);
    }

    /** Enters the snapshot table in the header. */
    method EnterTable(first: nat)
      requires st.Valid() && HeaderInPlace(View())
      modifies st`disk, `header
      ensures st.Valid() && HeaderWritten(old(View()), View()) && st.Rc() == old(st.Rc())
      ensures header == Entered(old(header), |snapshots|, first * CLUSTER_BYTES)
    {
      hide BlocksOk, CountsOf, Entered;
      EnteredLength(header, |snapshots|, first * CLUSTER_BYTES);
      var h := Entered(st.disk[0].bytes, |snapshots|, first * CLUSTER_BYTES);
      st.WriteBlobs(0, [h]);
      header := h;
      assert st.disk == old(st.disk)[0 := Blob(h)];
    }

    /**
      Takes a snapshot of the guest disk, under a new id when none is given. Refused (-ENOENT) when the
      id is in use. The number of snapshots must leave room in the 16-bit counts.
     */
    method SnapshotCreate(idStr: string, name: string, vmStateSize: nat, dateSec: nat, dateNsec: nat, vmClockNsec: nat)
        returns (ok: bool, ret: int)
      requires Ready([]) && |snapshots| + 1 < MAX_REFCOUNT
      modifies this, st
      ensures ok <==> !st.exhausted
      ensures ok ==> Ready([]) && |l1Table| == old(|l1Table|) && SameGuest(old(View()), View())
      ensures ok && Filed(old(View())) && Sized(View()) ==> Filed(View())
      ensures var id := GivenId(Ids(old(snapshots)), idStr);
              && (IndexOf(Ids(old(snapshots)), id) >= 0 ==> ok && ret == -ENOENT && View() == old(View()))
              && (ok && IndexOf(Ids(old(snapshots)), id) < 0 ==>
                    && ret == 0 && SnapshotAdded(old(View()), View(), id, name)
                    && |snapshots| == |old(snapshots)| + 1
                    && Describes(snapshots[|old(snapshots)|], id, name, vmStateSize, dateSec, dateNsec, vmClockNsec))
              && Spent(ok, old(st.Spare()), st.Spare(), CreateNeed(|old(l1Table)|, old(snapshots), id, name))
    {
      hide Inv, SnapsKept, SameGuest, CountsOf, BlocksOk, CacheAgrees, SnapshotAdded, IndexOf, Spent, Uses,
           TableNeed, L1Clusters, NewId;
      ghost var img, spare := View(), st.Spare();
      var id := idStr;
      if id == "" { id := FindNewSnapshotId(Ids(snapshots)); }
      var i := FindSnapshotById(id);
      SameKept(img);
      ghost var need := CreateNeed(|l1Table|, snapshots, id, name);
      if i >= 0 {
        SpentNone(spare, st.Spare(), need);
        return true, -ENOENT;
      }
      ret := 0;
      ok := AddSnapshot(id, name, vmStateSize, dateSec, dateNsec, vmClockNsec);
      if !ok {
        SpentMore(ok, spare, st.Spare(), L1Clusters(|old(l1Table)|), need);
        return;
      }
      ghost var img4, added := View(), st.Spare();
      SameTableNeed(snapshots, old(snapshots) + [Listed(id, name)]);
      ok := WriteSnapshots();
      SpentLate(ok, spare, added, st.Spare(), L1Clusters(|old(l1Table)|), TableNeed(snapshots), TableNeed(snapshots));
      if ok { AddedKept(img, img4, View(), id, name); }
    }

    /** Counts everything under the level-1 table once more, and lists a copy of it as a snapshot. */
    method AddSnapshot(id: string, name: string, vmStateSize: nat, dateSec: nat, dateNsec: nat, vmClockNsec: nat)
        returns (ok: bool)
      requires Ready([]) && |snapshots| + 1 < MAX_REFCOUNT
      modifies st, `l1Table, `l2Cache, `l2CacheOffsets, `l2CacheCounts, `snapshots
      ensures ok <==> !st.exhausted
      ensures ok ==> st.Valid() && Inv(View(), []) && HitsOk() && CacheEmpty() && |l1Table| == old(|l1Table|)
      ensures ok ==> SameGuest(old(View()), View()) && SnapshotAdded(old(View()), View(), id, name)
      ensures ok ==>
                |snapshots| == |old(snapshots)| + 1 &&
                Describes(snapshots[|old(snapshots)|], id, name, vmStateSize, dateSec, dateNsec, vmClockNsec)
      ensures ok ==> snapshots[..|old(snapshots)|] == old(snapshots)
      ensures Spent(ok, old(st.Spare()), st.Spare(), L1Clusters(|old(l1Table)|))
    {
      hide Inv, SameGuest, CountsOf, BlocksOk, CacheAgrees, GuestAt, ActiveUpdated, Written, SameOutside, L1Clusters,
           L1Region, ReadL1, Spent, Uses, SnapshotAdded, Flatten;
      ghost var img, spare := View(), st.Spare();
      CountActive();
      ghost var img1, counted := View(), st.Spare();
      var first;
      ghost var img2;
      ok, first, img2 := PlaceL1(Flatten(img1.disk, img1.l1));
      SpentThen(ok, spare, counted, st.Spare(), 0, L1Clusters(|l1Table|));
      if !ok { return; }
      var sn := Snapshot(first, |l1Table|, id, name, vmStateSize, dateSec, dateNsec, vmClockNsec);
      SnapshotMade(img, img1, img2, View(), sn);
      snapshots := snapshots + [sn];
    }

    /** Counts everything under the active level-1 table once more. */
    method CountActive()
      requires Ready([]) && |snapshots| + 1 < MAX_REFCOUNT
      modifies st`disk, st`refcountBlockCache, st`refcountBlockCacheOffset, st`freeClusterIndex,
               `l1Table, `l2Cache, `l2CacheOffsets, `l2CacheCounts
      ensures st.Valid() && HitsOk() && CacheEmpty() && |l1Table| == old(|l1Table|) > 0
      ensures ActiveUpdated(old(View()), View(), 1) && Inv(View(), Flatten(st.disk, l1Table))
      ensures Uses(old(st.Spare()), st.Spare(), 0)
    {
      hide Inv, SnapsKept, SameGuest, CountsOf, BlocksOk, CacheAgrees, References, RootUpdated, InBounds, GoodTree,
           L1Clusters, L1Region, ReadL1, Uses, Flatten;
      ghost var img := View();
      ActiveInBounds(img, 1);
      ImageParts(img, []);
      UpdateSnapshotRefcount(l1TableOffset, |l1Table|, 1);
      CountedOnce(img, View());
      CountedZeros(img, View());
      UsesNone(old(st.Spare()), st.Spare());
    }

    /** Takes clusters for a copy of the level-1 table and writes it there; img2 is the image in between. */
    method PlaceL1(ghost pend: seq<Entry>) returns (ok: bool, first: nat, ghost img2: Img)
      requires st.Valid() && !st.exhausted && Inv(View(), pend) && |l1Table| > 0
      modifies st
      ensures st.Valid() && ok == !st.exhausted && Spent(ok, old(st.Spare()), st.Spare(), L1Clusters(|l1Table|))
      ensures ok ==> Written(old(View()), img2, {}) && View() == img2.(disk := st.disk)
      ensures ok ==> var n := L1Clusters(|l1Table|);
                     && first + n <= |old(st.Rc())| == |img2.rc|
                     && (forall k :: first <= k < first + n ==> old(st.Rc())[k] == 0)
                     && (forall k: nat :: k < |img2.rc| ==> img2.rc[k] == old(st.Rc())[k] + Within(k, first, n))
      ensures ok ==> SameOutside(img2.disk, st.disk, L1Span(first, |l1Table|)) && L1Region(st.disk, first, |l1Table|)
      ensures ok ==> ReadL1(st.disk, first, |l1Table|) == l1Table
    {
      hide Inv, CountsOf, BlocksOk, References, Written, SameButCounts, SameOutside, L1Clusters, L1Region, ReadL1,
           Taken, Spent;
      ghost var img := View();
      L1Positive(|l1Table|);
      ok, first := st.AllocClusters(L1Clusters(|l1Table|));
      img2 := View();
      if !ok { return; }
      CountsOnly(img, img2);
      TakenNotBlocks(img, img2, pend, first, L1Clusters(|l1Table|));
      st.WriteL1(first, l1Table);
      L1Written(img2.disk, st.disk, first, |l1Table|);
    }

    /** Makes the guest disk that of a snapshot. */
    method SnapshotGoto(key: string) returns (ret: int)
      requires Ready([]) && |snapshots| + 1 < MAX_REFCOUNT
      modifies st, `l1Table, `l2Cache, `l2CacheOffsets, `l2CacheCounts
      ensures Ready([]) && |l1Table| == old(|l1Table|) && snapshots == old(snapshots) && SnapsKept(old(View()), View())
      ensures KeyOf(old(snapshots), key) < 0 ==> ret == -ENOENT && View() == old(View())
      ensures KeyOf(old(snapshots), key) >= 0 ==> ret == 0
      ensures Uses(old(st.Spare()), st.Spare(), 0) && !st.exhausted
      ensures KeyOf(old(snapshots), key) >= 0 ==>
                forall backing, s: nat ::
                    Guest(View(), backing, s) == SnapGuest(old(View()), backing, KeyOf(old(snapshots), key), s)
    {
      hide Inv, SnapsKept, SameGuest, CountsOf, BlocksOk, CacheAgrees, GuestAt, KeyOf, SnapL1, Uses;
      SameKept(View());
      UsesNone(st.Spare(), st.Spare());
      var i := FindSnapshotByIdOrName(key);
      if i < 0 { return -ENOENT; }
      GoBack(i);
      ret := 0;
    }

    /** Gives up the active tree, copies the level-1 table of snapshot i over it, and counts that tree. */
    method GoBack(i: nat)
      requires Ready([]) && |snapshots| + 1 < MAX_REFCOUNT && i < |snapshots|
      modifies `l1Table, `l2Cache, `l2CacheOffsets, `l2CacheCounts,
               st`disk, st`refcountBlockCache, st`refcountBlockCacheOffset, st`freeClusterIndex
      ensures Ready([]) && |l1Table| == old(|l1Table|) && snapshots == old(snapshots) && SnapsKept(old(View()), View())
      ensures forall backing, s: nat :: Guest(View(), backing, s) == SnapGuest(old(View()), backing, i, s)
      ensures Uses(old(st.Spare()), st.Spare(), 0)
    {
      hide Uses, Inv, SnapsKept, SameGuest, CountsOf, BlocksOk, CacheAgrees, References, GuestAt, RootUpdated,
           InBounds, GoodTree, SameOutside, AlikeOutside, L1Clusters, L1Region, ReadL1;
      ghost var img := View();
      var sn := snapshots[i];
      ActiveInBounds(img, -1);
      ImageParts(img, []);
      UpdateSnapshotRefcount(l1TableOffset, |l1Table|, -1);
      ghost var img1 := View();
      GotoFirst(img, img1, i);
      l1Table := ReadL1(st.disk, sn.l1Offset, sn.l1Size);
      RegionNotBlocks(st.disk, st.refcountTable, l1TableOffset, |l1Table|);
      st.WriteL1(l1TableOffset, l1Table);
      ghost var img2 := View();
      L1Rewritten(img1.disk, img2.disk, l1TableOffset, |l1Table|);
      GotoMiddle(img, img1, img2, i);
      UpdateSnapshotRefcount(l1TableOffset, |l1Table|, 1);
      UpdatedLength(img2, View(), 1);
      GotoStep(img, img1, img2, View(), i);
      EmptyAgrees(View(), l2CacheOffsets, l2Cache);
      UsesNone(old(st.Spare()), st.Spare());
    }

    /** Deletes a snapshot. */
    method SnapshotDelete(key: string) returns (ok: bool, ret: int)
      requires Ready([])
      modifies this, st
      ensures ok <==> !st.exhausted
      ensures ok ==> Ready([]) && |l1Table| == old(|l1Table|) && SameGuest(old(View()), View())
      ensures ok && Filed(old(View())) && Sized(View()) ==> Filed(View())
      ensures KeyOf(old(snapshots), key) < 0 ==> ok && ret == -ENOENT && View() == old(View())
      ensures ok && KeyOf(old(snapshots), key) >= 0 ==>
                ret == 0 && SnapshotRemoved(old(View()), View(), KeyOf(old(snapshots), key))
      ensures Spent(ok, old(st.Spare()), st.Spare(), DeleteNeed(old(snapshots), key))
    {
      hide Inv, SnapsKept, SameGuest, CountsOf, BlocksOk, CacheAgrees, SnapshotRemoved, KeyOf, Spent, Uses, TableNeed;
      ghost var img, spare := View(), st.Spare();
      SameKept(img);
      var i := FindSnapshotByIdOrName(key);
      if i < 0 {
        SpentNone(spare, st.Spare(), 0);
        return true, -ENOENT;
      }
      DropSnapshot(i);
      ghost var img3, dropped := View(), st.Spare();
      ok := WriteSnapshots();
      SpentThen(ok, spare, dropped, st.Spare(), 0, TableNeed(snapshots));
      ret := 0;
      if ok { RemovedKept(img, img3, View(), i); }
    }

    /** Gives up everything that snapshot i counts, makes the active flags right, and takes it off the list. */
    method DropSnapshot(i: nat)
      requires Ready([]) && i < |snapshots|
      modifies `l1Table, `l2Cache, `l2CacheOffsets, `l2CacheCounts, `snapshots,
               st`disk, st`refcountBlockCache, st`refcountBlockCacheOffset, st`freeClusterIndex
      ensures st.Valid() && Inv(View(), []) && HitsOk() && CacheEmpty() && |l1Table| == old(|l1Table|)
      ensures snapshots == Without(old(snapshots), i)
      ensures var a := old(View()).(snapshots := Without(old(snapshots), i));
              SnapsKept(a, View()) && SameGuest(a, View())
      ensures Uses(old(st.Spare()), st.Spare(), 0)
    {
      hide Uses, Inv, SnapsKept, SameGuest, CountsOf, BlocksOk, CacheAgrees, References, RootUpdated, InBounds,
           GoodTree, SameOutside, L1Clusters, L1Region, ReadL1, SameButCounts;
      ghost var img := View();
      var sn := snapshots[i];
      SnapInBounds(img, i);
      ImageParts(img, []);
      UpdateSnapshotRefcount(sn.l1Offset, sn.l1Size, -1);
      ghost var img1 := View();
      assert DeleteFirst(img, img1, i);
      DeleteMiddle(img, img1, i);
      NoAddend(img1.disk, img1.rc, img1.l1);
      UpdatedSizes(img, img1, i);
      UpdateSnapshotRefcount(l1TableOffset, |l1Table|, 0);
      ghost var img2 := View();
      TableCounted(img, img1, img2, i);
      st.UpdateRange(sn.l1Offset, L1Clusters(sn.l1Size), -1);
      DeleteStep(img, img1, img2, View(), i);
      DroppedZeros(img, img1, img2, View(), i);
      UsesNone(old(st.Spare()), st.Spare());
      snapshots := Without(snapshots, i);
    }
  }
}
