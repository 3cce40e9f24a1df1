/**
  The image file behind a qcow2 image, its refcount blocks with their one-block cache,
  and the cluster allocator.
 */
module Qcow2Store {
  import opened Arith
  import opened Qcow2Format

  const EINVAL: int := 22

  /** Only the values of refcount blocks differ. */
  ghost predicate SameButCounts(d: Disk, d': Disk) {
    && |d| == |d'|
    && (forall c :: 0 <= c < |d| ==> if d[c].Counts? then d'[c].Counts? else d'[c] == d[c])
  }

  /** The refcount table rt names a distinct, complete block for every cluster of d. */
  ghost predicate BlocksOk(d: Disk, rt: seq<nat>) {
    && (forall k: nat :: k < |d| ==> Div(k, BLOCK_COUNTS) < |rt|)
    && (forall b :: 0 <= b < |rt| ==> rt[b] != 0 && rt[b] < |d| && BlockOk(d[rt[b]]))
    && (forall b, b' :: 0 <= b < b' < |rt| ==> rt[b] != rt[b'])
  }

  ghost predicate BlockOk(c: Cluster) {
    c.Counts? && |c.counts| == BLOCK_COUNTS && forall x :: 0 <= x < |c.counts| ==> c.counts[x] <= MAX_REFCOUNT
  }

  /** Entry x of the refcount block b. */
  function Slot(d: Disk, rt: seq<nat>, b: nat, x: nat): nat {
    if b < |rt| && rt[b] < |d| && d[rt[b]].Counts? && x < |d[rt[b]].counts|
    then d[rt[b]].counts[x] else 0
  }

  /** The count stored for cluster k. */
  function CountAt(d: Disk, rt: seq<nat>, k: nat): nat {
    Slot(d, rt, Div(k, BLOCK_COUNTS), Mod(k, BLOCK_COUNTS))
  }

  function CountsOf(d: Disk, rt: seq<nat>): (rc: seq<nat>)
    ensures |rc| == |d| && forall k: nat :: k < |d| ==> rc[k] == CountAt(d, rt, k)
  {
    seq(|d|, k requires k >= 0 => CountAt(d, rt, k))
  }

  /** Storing a count for cluster k changes the count of k and of no other cluster. */
  lemma StoreCount(d: Disk, rt: seq<nat>, k: nat, v: nat, d': Disk)
    requires BlocksOk(d, rt) && k < |d| && v <= MAX_REFCOUNT
    requires var b := rt[Div(k, BLOCK_COUNTS)]; d' == d[b := Counts(d[b].counts[Mod(k, BLOCK_COUNTS) := v])]
    ensures BlocksOk(d', rt) && CountsOf(d', rt) == CountsOf(d, rt)[k := v]
  {
    forall k': nat | k' < |d|
      ensures CountAt(d', rt, k') == CountsOf(d, rt)[k := v][k']
    {
      if k' != k { StoreOther(d, rt, k, v, d', k'); }
    }
  }

  lemma StoreOther(d: Disk, rt: seq<nat>, k: nat, v: nat, d': Disk, k': nat)
    requires BlocksOk(d, rt) && k < |d| && k' < |d| && k' != k
    requires var b := rt[Div(k, BLOCK_COUNTS)]; d' == d[b := Counts(d[b].counts[Mod(k, BLOCK_COUNTS) := v])]
    ensures CountAt(d', rt, k') == CountAt(d, rt, k')
  {
    if Div(k, BLOCK_COUNTS) == Div(k', BLOCK_COUNTS) && Mod(k, BLOCK_COUNTS) == Mod(k', BLOCK_COUNTS) {
      DivModUnique(k, k', BLOCK_COUNTS);
    }
    StoreSlot(d, rt, Div(k, BLOCK_COUNTS), Mod(k, BLOCK_COUNTS), v, d', Div(k', BLOCK_COUNTS), Mod(k', BLOCK_COUNTS));
  }

  lemma StoreSlot(d: Disk, rt: seq<nat>, b: nat, x: nat, v: nat, d': Disk, b': nat, x': nat)
    requires b < |rt| && b' < |rt| && (b != b' ==> rt[b] != rt[b']) && (b == b' ==> x != x')
    requires rt[b] < |d| && rt[b'] < |d| && BlockOk(d[rt[b]]) && BlockOk(d[rt[b']]) && x < BLOCK_COUNTS
    requires x' < BLOCK_COUNTS
    requires d' == d[rt[b] := Counts(d[rt[b]].counts[x := v])]
    ensures Slot(d', rt, b', x') == Slot(d, rt, b', x')
  {
  }

  /** a times n, for the addends -1, 0 and 1 of the refcount code. */
  function Scaled(a: int, n: nat): int {
    if a == 1 then n as int else if a == -1 then -(n as int) else 0
  }

  /** Some cluster of the run [p, p + n) is in use. */
  ghost predicate Taken(rc: seq<nat>, p: nat, n: nat) {
    exists q :: p <= q < p + n && q < |rc| && rc[q] != 0
  }

  // ----- room at the end of the file

  /** The counts, and where the search for unused clusters goes on. */
  datatype Space = Space(rc: seq<nat>, from: nat)

  /** The last m clusters, and all behind some point not before the search, are unused. */
  ghost predicate Room(s: Space, m: nat) {
    exists t: nat :: s.from <= t && t + m <= |s.rc| && UnusedFrom(s.rc, t)
  }

  ghost predicate UnusedFrom(rc: seq<nat>, t: nat) {
    forall k :: t <= k < |rc| ==> rc[k] == 0
  }

  /** On the way from s to s' at most m clusters of the room were used up. */
  ghost predicate Uses(s: Space, s': Space, m: nat) {
    |s'.rc| == |s.rc| && forall r: nat :: Room(s, r + m) ==> Room(s', r)
  }

  lemma UsesMore(s: Space, s': Space, m: nat, m': nat)
    requires Uses(s, s', m) && m <= m'
    ensures Uses(s, s', m')
  {
    forall r: nat | Room(s, r + m')
      ensures Room(s', r)
    {
      var t: nat :| s.from <= t && t + (r + m') <= |s.rc| && UnusedFrom(s.rc, t);
      assert Room(s, r + m);
    }
  }

  lemma UsesBoth(a: Space, b: Space, c: Space, m: nat, m': nat)
    requires Uses(a, b, m) && Uses(b, c, m')
    ensures Uses(a, c, m + m')
  {
    forall r: nat | Room(a, r + (m + m'))
      ensures Room(c, r)
    {
      assert Room(a, (r + m') + m);
      assert Room(b, r + m');
    }
  }

  /** What an operation does to the room: at most m clusters are used up; it fails only without room for m. */
  ghost predicate Spent(ok: bool, s: Space, s': Space, m: nat) {
    if ok then Uses(s, s', m) else !Room(s, m)
  }

  lemma RoomLess(s: Space, m: nat, m': nat)
    requires Room(s, m') && m <= m'
    ensures Room(s, m)
  {
    var t: nat :| s.from <= t && t + m' <= |s.rc| && UnusedFrom(s.rc, t);
  }

  lemma SpentMore(ok: bool, s: Space, s': Space, m: nat, m': nat)
    requires Spent(ok, s, s', m) && m <= m'
    ensures Spent(ok, s, s', m')
  {
    hide Room, Uses;
    if ok { UsesMore(s, s', m, m'); } else if Room(s, m') { RoomLess(s, m, m'); }
  }

  lemma SpentThen(ok: bool, a: Space, b: Space, c: Space, m: nat, m': nat)
    requires Uses(a, b, m) && Spent(ok, b, c, m')
    ensures Spent(ok, a, c, m + m')
  {
    hide Room;
    if ok { UsesBoth(a, b, c, m, m'); } else { assert m' + m == m + m'; }
  }

  lemma SpentNone(s: Space, s': Space, m: nat)
    requires s' == s
    ensures Spent(true, s, s', m)
  {
    hide Uses;
    UsesNone(s, s');
    UsesMore(s, s', 0, m);
  }

  /** A first part that succeeds and uses up at most m, then one that may fail for want of m' <= most. */
  lemma SpentLate(ok: bool, a: Space, b: Space, c: Space, m: nat, m': nat, most: nat)
    requires Spent(true, a, b, m) && Spent(ok, b, c, m') && m' <= most
    ensures Spent(ok, a, c, m + if ok then m' else most)
  {
    hide Room, Uses;
    SpentThen(ok, a, b, c, m, m');
    if !ok { SpentMore(ok, a, c, m + m', m + most); }
  }

  /** A part that succeeds, then one that uses up nothing. */
  lemma SpentBefore(ok: bool, a: Space, b: Space, c: Space, m: nat)
    requires ok && Spent(ok, a, b, m) && Uses(b, c, 0)
    ensures Spent(ok, a, c, m)
  {
    hide Room, Uses;
    UsesBoth(a, b, c, m, 0);
  }

  /** One more part of an operation that needs all in total, of which left was still needed and left' will be. */
  lemma SpentPart(ok: bool, a: Space, b: Space, c: Space, all: nat, left: nat, left': nat)
    requires left <= all && Uses(a, b, all - left) && left' <= left && (!ok ==> left' == 0)
    requires Spent(ok, b, c, left - left')
    ensures if ok then Uses(a, c, all - left') else Spent(ok, a, c, all)
  {
    hide Room, Uses;
    SpentThen(ok, a, b, c, all - left, left - left');
  }

  lemma SpentIs(s: Space, s': Space, m: nat)
    requires Spent(true, s, s', m)
    ensures Uses(s, s', m)
  {
  }

  lemma SpentUses(s: Space, s': Space, m: nat)
    requires Uses(s, s', m)
    ensures Spent(true, s, s', m)
  {
  }

  /** Where no unused cluster gets a count and the search does not move on, no room is used up. */
  lemma UsesNone(s: Space, s': Space)
    requires |s'.rc| == |s.rc| && s'.from <= s.from && forall k :: 0 <= k < |s.rc| && s.rc[k] == 0 ==> s'.rc[k] == 0
    ensures Uses(s, s', 0)
  {
    forall r: nat | Room(s, r + 0)
      ensures Room(s', r)
    {
      var t: nat :| s.from <= t && t + (r + 0) <= |s.rc| && UnusedFrom(s.rc, t);
      assert UnusedFrom(s'.rc, t);
    }
  }

  /** A search that finds the first unused run takes it at or before the end of what is in use. */
  lemma UsesRun(s: Space, s': Space, first: nat, n: nat)
    requires s.from <= first && first + n <= |s.rc| && s'.from == first + n && |s'.rc| == |s.rc|
    requires forall p: nat :: s.from <= p < first && p + n <= |s.rc| ==> Taken(s.rc, p, n)
    requires forall k: nat :: k < |s.rc| ==> s'.rc[k] == s.rc[k] + Within(k, first, n)
    ensures Uses(s, s', n)
  {
    forall r: nat | Room(s, r + n)
      ensures Room(s', r)
    {
      var t: nat :| s.from <= t && t + (r + n) <= |s.rc| && UnusedFrom(s.rc, t);
      assert !Taken(s.rc, t, n);
      assert UnusedFrom(s'.rc, t + n);
    }
  }

  /** When every run from the search on is taken, there is no room for one. */
  lemma NoRoom(s: Space, n: nat)
    requires forall p: nat :: s.from <= p && p + n <= |s.rc| ==> Taken(s.rc, p, n)
    ensures !Room(s, n)
  {
    forall t: nat | s.from <= t && t + n <= |s.rc|
      ensures !UnusedFrom(s.rc, t)
    {
      assert Taken(s.rc, t, n);
    }
  }

  class Store {
    var disk: Disk
    const refcountTable: seq<nat>
    var refcountBlockCache: seq<nat>
    var refcountBlockCacheOffset: nat
    var freeClusterIndex: nat
    ghost var exhausted: bool  // an allocation has reached the end of the covered clusters

    constructor (disk: Disk, refcountTable: seq<nat>)
      requires BlocksOk(disk, refcountTable)
      ensures Valid() && !exhausted && this.disk == disk && this.refcountTable == refcountTable && freeClusterIndex == 0
    {
      this.disk, this.refcountTable := disk, refcountTable;
      refcountBlockCache, refcountBlockCacheOffset, freeClusterIndex, exhausted := [], 0, 0, false;
    }

    /** The blocks are all present and the cached block, if any, equals the one in the file. */
    ghost predicate Valid()
      reads this
    {
      && BlocksOk(disk, refcountTable) && freeClusterIndex <= |disk|
      && (refcountBlockCacheOffset == 0
          || (refcountBlockCacheOffset in refcountTable
              && disk[refcountBlockCacheOffset].counts == refcountBlockCache))
    }

    /** The count of every cluster of the file. */
    ghost function Rc(): (rc: seq<nat>)
      reads this
      ensures |rc| == |disk| && (Valid() ==> forall k :: 0 <= k < |rc| ==> rc[k] <= MAX_REFCOUNT)
    {
      CountsOf(disk, refcountTable)
    }

    ghost function Spare(): Space
      reads this
    {
      Space(Rc(), freeClusterIndex)
    }

    method LoadRefcountBlock(offset: nat)
      requires Valid() && offset in refcountTable
      modifies `refcountBlockCache, `refcountBlockCacheOffset
      ensures Valid() && refcountBlockCacheOffset == offset && refcountBlockCache == disk[offset].counts
    {
      refcountBlockCache := disk[offset].counts;
      refcountBlockCacheOffset := offset;
    }

    method GetRefcount(k: nat) returns (r: nat)
      requires Valid()
      modifies `refcountBlockCache, `refcountBlockCacheOffset
      ensures Valid() && r == CountAt(disk, refcountTable, k) && (k < |disk| ==> r == Rc()[k])
    {
      if Div(k, BLOCK_COUNTS) >= |refcountTable| { return 0; }
      var offset := refcountTable[Div(k, BLOCK_COUNTS)];
      if offset != refcountBlockCacheOffset {
        LoadRefcountBlock(offset);
      }
      r := refcountBlockCache[Mod(k, BLOCK_COUNTS)];
    }

    /** Adds to the count of one cluster; refuses a count below 0 or above 0xffff. */
    method UpdateClusterRefcount(k: nat, addend: int) returns (r: int)
      requires Valid() && k < |disk|
      modifies `disk, `refcountBlockCache, `refcountBlockCacheOffset, `freeClusterIndex
      ensures Valid() && SameButCounts(old(disk), disk)
      ensures var v := old(Rc())[k] + addend;
              if 0 <= v <= MAX_REFCOUNT then r == v && Rc() == old(Rc())[k := v]
              else r == -EINVAL && Rc() == old(Rc())
      ensures freeClusterIndex <= old(freeClusterIndex) && (addend > 0 ==> freeClusterIndex == old(freeClusterIndex))
      ensures freeClusterIndex == if old(Rc())[k] + addend == 0 && k < old(freeClusterIndex) then k
                                  else old(freeClusterIndex)
    {
      var offset := refcountTable[Div(k, BLOCK_COUNTS)];
      if offset != refcountBlockCacheOffset {
        LoadRefcountBlock(offset);
      }
      var refcount := refcountBlockCache[Mod(k, BLOCK_COUNTS)] + addend;
      if refcount < 0 || refcount > MAX_REFCOUNT {
        return -EINVAL;
      }
      if refcount == 0 && k < freeClusterIndex {
        freeClusterIndex := k;
      }
      refcountBlockCache := refcountBlockCache[Mod(k, BLOCK_COUNTS) := refcount];
      disk := disk[offset := Counts(refcountBlockCache)];
      StoreCount(old(disk), refcountTable, k, refcount, disk);
      r := refcount;
    }

    /** Adds to the counts of the run of n clusters at first. */
    method UpdateRange(first: nat, n: nat, addend: int)
      requires Valid() && (n > 0 ==> first + n <= |disk|)
      requires forall k :: first <= k < first + n ==> 0 <= Rc()[k] + addend <= MAX_REFCOUNT
      modifies `disk, `refcountBlockCache, `refcountBlockCacheOffset, `freeClusterIndex
      ensures Valid() && SameButCounts(old(disk), disk)
      ensures forall k: nat :: k < |disk| ==> Rc()[k] == old(Rc())[k] + (if first <= k < first + n then addend else 0)
      ensures freeClusterIndex <= old(freeClusterIndex) && (addend > 0 ==> freeClusterIndex == old(freeClusterIndex))
      ensures forall k :: first <= k < first + n && Rc()[k] == 0 ==> freeClusterIndex <= k
      ensures freeClusterIndex < old(freeClusterIndex) ==>
                first <= freeClusterIndex < first + n && Rc()[freeClusterIndex] == 0
    {
      var i := 0;
      while i < n
        invariant i <= n && Valid() && SameButCounts(old(disk), disk)
        invariant forall k: nat :: k < |disk| ==>
                    Rc()[k] == old(Rc())[k] + (if first <= k < first + i then addend else 0)
        invariant freeClusterIndex <= old(freeClusterIndex)
        invariant (addend > 0 ==> freeClusterIndex == old(freeClusterIndex))
        invariant forall k :: first <= k < first + i && Rc()[k] == 0 ==> freeClusterIndex <= k
        invariant freeClusterIndex < old(freeClusterIndex) ==>
                    first <= freeClusterIndex < first + i && Rc()[freeClusterIndex] == 0
      {
        var _ := UpdateClusterRefcount(first + i, addend);
        i := i + 1;
      }
    }

    /** Finds the next run of n unused clusters; fails when the covered part of the file has none left. */
    method AllocClustersNoref(n: nat) returns (ok: bool, first: nat)
      requires Valid()
      modifies `refcountBlockCache, `refcountBlockCacheOffset, `freeClusterIndex, `exhausted
      ensures Valid() && Rc() == old(Rc()) && exhausted == (old(exhausted) || !ok)
      ensures ok ==> old(freeClusterIndex) <= first && first + n == freeClusterIndex <= |disk|
      ensures ok ==> forall k :: first <= k < first + n ==> Rc()[k] == 0
      ensures ok ==> forall p: nat :: old(freeClusterIndex) <= p < first && p + n <= |disk| ==> Taken(Rc(), p, n)
      ensures !ok ==> forall p: nat :: old(freeClusterIndex) <= p && p + n <= |disk| ==> Taken(Rc(), p, n)
    {
      hide CountsOf, BlocksOk, Div, Mod;
      ghost var rc := Rc();
      ghost var start := freeClusterIndex;
      var i := 0;
      while i < n
        invariant Valid() && Rc() == rc && exhausted == old(exhausted)
        invariant i <= n && start + i <= freeClusterIndex
        invariant forall k :: freeClusterIndex - i <= k < freeClusterIndex ==> rc[k] == 0
        invariant forall p: nat :: start <= p < freeClusterIndex - i && p + n <= |disk| ==> Taken(rc, p, n)
        decreases |disk| - freeClusterIndex
      {
        if freeClusterIndex >= |disk| {
          exhausted := true;
          return false, 0;
        }
        var k := freeClusterIndex;
        freeClusterIndex := freeClusterIndex + 1;
        var r := GetRefcount(k);
        if r != 0 {
          assert forall p: nat :: k - i <= p <= k && p + n <= |disk| ==> Taken(rc, p, n) by {
            assert rc[k] != 0;
          }
          i := 0;
        } else {
          i := i + 1;
        }
      }
      return true, freeClusterIndex - n;
    }

    /** Takes a run of n clusters whose counts were all 0 and counts each of them once. */
    method AllocClusters(n: nat) returns (ok: bool, first: nat)
      requires Valid()
      modifies this
      ensures Valid() && SameButCounts(old(disk), disk) && exhausted == (old(exhausted) || !ok)
      ensures |disk| == |old(disk)| && (ok ==> first + n <= |disk|)
      ensures ok ==> forall k :: first <= k < first + n ==> old(Rc())[k] == 0
      ensures ok ==> forall k: nat :: k < |disk| ==> Rc()[k] == old(Rc())[k] + Within(k, first, n)
      ensures !ok ==> Rc() == old(Rc())
      ensures Spent(ok, old(Spare()), Spare(), n)
    {
      hide CountsOf, BlocksOk, Taken;
      ghost var before := Spare();
      ok, first := AllocClustersNoref(n);
      if ok {
        UpdateRange(first, n, 1);
        UsesRun(before, Spare(), first, n);
      } else {
        NoRoom(before, n);
      }
    }

    /** Adds to the count of the cluster that e names, and gives e the flag that its count calls for. */
    method TouchEntry(e: Entry, addend: int) returns (e': Entry)
      requires Valid() && addend in {-1, 0, 1}
      requires e.host < |disk| && (e.host == 0 ==> e == Unused)
      requires e.host != 0 ==> 0 <= Rc()[e.host] + addend <= MAX_REFCOUNT
      modifies `disk, `refcountBlockCache, `refcountBlockCacheOffset, `freeClusterIndex
      ensures Valid() && SameButCounts(old(disk), disk)
      ensures forall k: nat :: k < |disk| ==> Rc()[k] == old(Rc())[k] + Scaled(addend, Refs(e, k))
      ensures e'.host == e.host && if e.host == 0 then e' == Unused else e'.copied <==> Rc()[e.host] == 1
      ensures freeClusterIndex <= old(freeClusterIndex)
    {
      if e == Unused { return e; }
      var refcount: int;
      if addend != 0 {
        refcount := UpdateClusterRefcount(e.host, addend);
      } else {
        refcount := GetRefcount(e.host);
      }
      e' := Entry(e.host, refcount == 1);
    }

    /** Adds to the counts of everything the table t names, and refreshes its COPIED flags. */
    method UpdateTableRefcounts(t: seq<Entry>, addend: int) returns (t': seq<Entry>, modified: bool)
      requires Valid() && addend in {-1, 0, 1}
      requires forall j :: 0 <= j < |t| ==> t[j].host < |disk| && (t[j].host == 0 ==> t[j] == Unused)
      requires forall k: nat :: TablePaths(t, k) <= 1
      requires forall k: nat :: k < |disk| ==> 0 <= Rc()[k] + Scaled(addend, TablePaths(t, k)) <= MAX_REFCOUNT
      modifies `disk, `refcountBlockCache, `refcountBlockCacheOffset, `freeClusterIndex
      ensures Valid() && SameButCounts(old(disk), disk)
      ensures Counted(old(Rc()), Rc(), t, addend)
      ensures SameHosts(t, t') && modified == (t' != t) && FlagsRight(Rc(), t')
      ensures freeClusterIndex <= old(freeClusterIndex)
    {
      ghost var rc := Rc();
      t', modified := [], false;
      while |t'| < |t|
        invariant |t'| <= |t| && Valid() && SameButCounts(old(disk), disk)
        invariant SameHosts(t[..|t'|], t') && modified == (t' != t[..|t'|])
        invariant Counted(rc, Rc(), t[..|t'|], addend) && FlagsRight(Rc(), t')
        invariant freeClusterIndex <= old(freeClusterIndex)
      {
        var j := |t'|;
        OneMore(t, j);
        ghost var rc1 := Rc();
        var e := TouchEntry(t[j], addend);
        if e != t[j] {
          modified := true;
        }
        CountedStep(rc, rc1, Rc(), t, j, addend);
        FlagsStep(rc1, Rc(), t, t', e, addend);
        t' := t' + [e];
      }
      assert t[..|t'|] == t;
    }

    /** Reads n sectors of the file, from sector o of cluster h on. */
    method ReadSectors(h: nat, o: nat, n: nat) returns (buf: seq<Sector>)
      ensures |buf| == n && forall t :: 0 <= t < n ==> buf[t] == RunSector(disk, h, o + t)
    {
      buf := [];
      while |buf| < n
        invariant |buf| <= n && forall t :: 0 <= t < |buf| ==> buf[t] == RunSector(disk, h, o + t)
      {
        buf := buf + [RunSector(disk, h, o + |buf|)];
      }
    }

    method WriteSector(k: nat, x: nat, v: Sector)
      requires Valid() && k < |disk| && k !in refcountTable && x < CLUSTER_SECTORS
      modifies `disk
      ensures Valid() && Rc() == old(Rc()) && disk == old(disk)[k := Data(AsSectors(old(disk)[k])[x := v])]
    {
      disk := disk[k := Data(AsSectors(disk[k])[x := v])];
      CountsElsewhere(old(disk), disk, refcountTable, k);
    }

    /** Writes sectors of the file, from sector o of cluster h on: those and no others. */
    method WriteSectors(h: nat, o: nat, buf: seq<Sector>)
      requires Valid() && o < CLUSTER_SECTORS
      requires h + Reach(o, |buf|) <= |disk|
      requires forall k :: h <= k < h + Reach(o, |buf|) ==> k !in refcountTable
      modifies `disk
      ensures Valid() && Rc() == old(Rc()) && |disk| == |old(disk)|
      ensures forall p: nat :: RunSector(disk, h, p)
                == if o <= p < o + |buf| then buf[p - o] else RunSector(old(disk), h, p)
      ensures forall k :: 0 <= k < |disk| ==>
                if h <= k < h + Reach(o, |buf|) then FullData(disk[k]) else disk[k] == old(disk)[k]
    {
      hide BlocksOk, CountsOf, Div, Mod;
      var t := 0;
      while t < |buf|
        invariant t <= |buf| && Valid() && Rc() == old(Rc()) && |disk| == |old(disk)|
        invariant forall p: nat :: RunSector(disk, h, p)
                    == if o <= p < o + t then buf[p - o] else RunSector(old(disk), h, p)
        invariant forall k :: 0 <= k < |disk| ==>
                    if h <= k < h + Reach(o, t) then FullData(disk[k]) else disk[k] == old(disk)[k]
      {
        ghost var d := disk;
        ReachStep(o, t);
        ReachAbove(o, |buf|, t);
        WriteSector(h + Div(o + t, CLUSTER_SECTORS), Mod(o + t, CLUSTER_SECTORS), buf[t]);
        PutSector(d, disk, h, o + t, buf[t]);
        t := t + 1;
      }
    }

    /** Writes the level-2 table in cluster h. */
    method WriteL2(h: nat, t: seq<Entry>)
      requires Valid() && h < |disk| && h !in refcountTable
      modifies `disk
      ensures Valid() && Rc() == old(Rc()) && disk == old(disk)[h := L2(t)]
    {
      disk := disk[h := L2(t)];
      CountsElsewhere(old(disk), disk, refcountTable, h);
    }

    /** Writes entries j .. j + n - 1 of the level-2 table in cluster h, as they are in t. */
    method WriteL2Entries(h: nat, t: seq<Entry>, j: nat, n: nat)
      requires Valid() && h < |disk| && h !in refcountTable
      requires disk[h].L2? && |disk[h].entries| == |t| && j + n <= |t|
      modifies `disk
      ensures Valid() && Rc() == old(Rc())
      ensures disk == old(disk)[h := L2(old(disk)[h].entries[..j] + t[j..j + n] + old(disk)[h].entries[j + n..])]
    {
      disk := disk[h := L2(disk[h].entries[..j] + t[j..j + n] + disk[h].entries[j + n..])];
      CountsElsewhere(old(disk), disk, refcountTable, h);
    }

    /** Writes entry x of the level-1 cluster c. */
    method WriteL1Entry(c: nat, x: nat, e: Entry)
      requires Valid() && c < |disk| && c !in refcountTable && x < L2_SIZE
      modifies `disk
      ensures Valid() && Rc() == old(Rc()) && disk == old(disk)[c := L1(AsEntries(old(disk)[c])[x := e])]
    {
      disk := disk[c := L1(AsEntries(disk[c])[x := e])];
      CountsElsewhere(old(disk), disk, refcountTable, c);
    }

    /** Writes a level-1 table to the clusters from offset on: those clusters and no others. */
    method WriteL1(offset: nat, l1: seq<Entry>)
      requires Valid() && |l1| > 0 && offset + L1Clusters(|l1|) <= |disk|
      requires forall c :: offset <= c < offset + L1Clusters(|l1|) ==> c !in refcountTable
      modifies `disk
      ensures Valid() && Rc() == old(Rc()) && |disk| == |old(disk)|
      ensures ReadL1(disk, offset, |l1|) == l1
      ensures forall c :: 0 <= c < |disk| ==>
                if offset <= c < offset + L1Clusters(|l1|) then IsL1(disk[c]) else disk[c] == old(disk)[c]
    {
      hide BlocksOk, CountsOf, Div, Mod, CeilDiv, ReadL1, L1At, AsEntries, IsL1At;
      L1Groups(|l1|);
      var i := 0;
      assert Groups(i) == 0;
      while i < |l1|
        invariant i <= |l1| && Valid() && Rc() == old(Rc()) && |disk| == |old(disk)|
        invariant forall x: nat :: x < i ==> IsL1At(disk, offset, x) && L1At(disk, offset, x) == l1[x]
        invariant forall c :: offset <= c < offset + Groups(i) ==> c < |disk| && IsL1(disk[c])
        invariant forall c :: 0 <= c < |disk| && !(offset <= c < offset + L1Clusters(|l1|)) ==> disk[c] == old(disk)[c]
      {
        ghost var d := disk;
        CeilDivAbove(|l1|, i, L2_SIZE);
        GroupStep(i);
        WriteL1Entry(offset + Div(i, L2_SIZE), Mod(i, L2_SIZE), l1[i]);
        PutL1(d, disk, offset, i, l1[i]);
        i := i + 1;
      }
    }

    /** Writes clusters of other metadata from first on. */
    method WriteBlobs(first: nat, bs: seq<seq<byte>>)
      requires Valid() && first + |bs| <= |disk| && forall c :: first <= c < first + |bs| ==> c !in refcountTable
      modifies `disk
      ensures Valid() && Rc() == old(Rc()) && |disk| == |old(disk)|
      ensures BlobsWritten(old(disk), disk, first, bs)
    {
      hide BlocksOk, CountsOf;
      var i := 0;
      while i < |bs|
        invariant i <= |bs| && Valid() && Rc() == old(Rc()) && |disk| == |old(disk)|
        invariant BlobsWritten(old(disk), disk, first, bs[..i])
      {
        ghost var d := disk;
        disk := disk[first + i := Blob(bs[i])];
        CountsElsewhere(d, disk, refcountTable, first + i);
        i := i + 1;
      }
    }

    /** Gives up one reference for every entry of a list. */
    method FreeEntries(t: seq<Entry>)
      requires Valid()
      requires forall j :: 0 <= j < |t| ==> 0 < t[j].host < |disk|
      requires forall k: nat :: k < |disk| ==> TablePaths(t, k) <= Rc()[k] <= MAX_REFCOUNT
      modifies `disk, `refcountBlockCache, `refcountBlockCacheOffset, `freeClusterIndex
      ensures Valid() && SameButCounts(old(disk), disk)
      ensures forall k: nat :: k < |disk| ==> Rc()[k] == old(Rc())[k] - TablePaths(t, k)
      ensures freeClusterIndex <= old(freeClusterIndex)
    {
      var j := 0;
      while j < |t|
        invariant j <= |t| && Valid() && SameButCounts(old(disk), disk)
        invariant forall k: nat :: k < |disk| ==> Rc()[k] == old(Rc())[k] - TablePaths(t[..j], k)
        invariant freeClusterIndex <= old(freeClusterIndex)
      {
        OneMoreFree(t, j);
        UpdateRange(t[j].host, 1, -1);
        j := j + 1;
      }
      assert t[..j] == t;
    }
  }

  // ----- level-1 clusters of the file

  function AsEntries(c: Cluster): (r: seq<Entry>)
    ensures |r| == L2_SIZE
  {
    if c.L1? && |c.entries| == L2_SIZE then c.entries else seq(L2_SIZE, _ => Unused)
  }

  ghost predicate IsL1(c: Cluster) { c.L1? && |c.entries| == L2_SIZE }

  /** How many clusters the first i entries of a level-1 table reach. */
  function Groups(i: nat): nat { if i == 0 then 0 else Div(i - 1, L2_SIZE) + 1 }

  lemma L1Groups(n: pos)
    ensures Groups(n) == L1Clusters(n)
  {
    assert n + L2_SIZE - 1 == (n - 1) + L2_SIZE;
  }

  lemma GroupStep(i: nat)
    ensures Groups(i) <= Groups(i + 1) <= Groups(i) + 1 && Groups(i + 1) == Div(i, L2_SIZE) + 1
  {
    if i > 0 { DivNext(i - 1, L2_SIZE); }
  }

  lemma PutL1(d: Disk, d': Disk, offset: nat, i: nat, e: Entry)
    requires var c := offset + Div(i, L2_SIZE);
             c < |d| && d' == d[c := L1(AsEntries(d[c])[Mod(i, L2_SIZE) := e])]
    ensures L1At(d', offset, i) == e && forall x: nat :: x == i || IsL1At(d, offset, x) ==> IsL1At(d', offset, x)
    ensures forall x: nat :: x != i && IsL1At(d, offset, x) ==> L1At(d', offset, x) == L1At(d, offset, x)
    ensures forall c :: 0 <= c < |d| ==> if c == offset + Div(i, L2_SIZE) then IsL1(d'[c]) else d'[c] == d[c]
  {
    hide Div, Mod;
    forall x: nat | x != i && IsL1At(d, offset, x)
      ensures L1At(d', offset, x) == L1At(d, offset, x)
    {
      if Div(x, L2_SIZE) == Div(i, L2_SIZE) && Mod(x, L2_SIZE) == Mod(i, L2_SIZE) {
        DivModUnique(x, i, L2_SIZE);
      }
    }
  }

  ghost predicate IsL1At(d: Disk, offset: nat, x: nat) {
    var c := offset + Div(x, L2_SIZE); c < |d| && IsL1(d[c])
  }

  // ----- sectors of the file

  function AsSectors(c: Cluster): (r: seq<Sector>)
    ensures |r| == CLUSTER_SECTORS
  {
    seq(CLUSTER_SECTORS, x => if 0 <= x && c.Data? && x < |c.sectors| then c.sectors[x] else 0)
  }

  ghost predicate FullData(c: Cluster) { c.Data? && |c.sectors| == CLUSTER_SECTORS }

  /** Sector p of the file, counted from the start of cluster h. */
  function RunSector(d: Disk, h: nat, p: nat): Sector {
    SectorOf(d, h + Div(p, CLUSTER_SECTORS), Mod(p, CLUSTER_SECTORS))
  }

  /** How many clusters a transfer of n sectors from sector o of a cluster on reaches. */
  function Reach(o: nat, n: nat): nat {
    if n == 0 then 0 else Div(o + n - 1, CLUSTER_SECTORS) + 1
  }

  lemma ReachOne(o: nat, n: nat)
    requires 0 < n && o + n <= CLUSTER_SECTORS
    ensures Reach(o, n) == 1
  {
  }

  lemma ReachAbove(o: nat, n: nat, t: nat)
    requires t < n
    ensures Div(o + t, CLUSTER_SECTORS) < Reach(o, n)
  {
    DivMono(o + t, o + n - 1, CLUSTER_SECTORS);
  }

  lemma ReachStep(o: nat, t: nat)
    requires o < CLUSTER_SECTORS
    ensures Reach(o, t) <= Reach(o, t + 1) <= Reach(o, t) + 1 && Reach(o, t + 1) == Div(o + t, CLUSTER_SECTORS) + 1
  {
    if t > 0 { DivNext(o + t - 1, CLUSTER_SECTORS); }
  }

  lemma PutSector(d: Disk, d': Disk, h: nat, p: nat, v: Sector)
    requires var k := h + Div(p, CLUSTER_SECTORS);
             k < |d| && d' == d[k := Data(AsSectors(d[k])[Mod(p, CLUSTER_SECTORS) := v])]
    ensures forall p': nat :: RunSector(d', h, p') == if p' == p then v else RunSector(d, h, p')
  {
    forall p': nat
      ensures RunSector(d', h, p') == if p' == p then v else RunSector(d, h, p')
    {
      if Div(p', CLUSTER_SECTORS) == Div(p, CLUSTER_SECTORS) && Mod(p', CLUSTER_SECTORS) == Mod(p, CLUSTER_SECTORS) {
        DivModUnique(p, p', CLUSTER_SECTORS);
      }
    }
  }

  lemma CountsElsewhere(d: Disk, d': Disk, rt: seq<nat>, k: nat)
    requires BlocksOk(d, rt) && k < |d| && k !in rt && |d'| == |d| && d' == d[k := d'[k]]
    ensures BlocksOk(d', rt) && CountsOf(d', rt) == CountsOf(d, rt)
  {
    assert forall b :: 0 <= b < |rt| ==> rt[b] != k && d'[rt[b]] == d[rt[b]];
    forall x: nat | x < |d|
      ensures CountAt(d', rt, x) == CountAt(d, rt, x)
    {
    }
  }

  /** rc' is rc with the addend applied once for every entry of t. */
  ghost predicate Counted(rc: seq<nat>, rc': seq<nat>, t: seq<Entry>, addend: int) {
    && |rc| == |rc'|
    && (forall k: nat :: k < |rc| ==> rc'[k] == rc[k] + Scaled(addend, TablePaths(t, k)))
  }

  /** Every used entry of t carries the COPIED flag exactly when its cluster is counted once. */
  ghost predicate FlagsRight(rc: seq<nat>, t: seq<Entry>) {
    forall j :: 0 <= j < |t| && t[j].host != 0 ==> t[j].host < |rc| && (t[j].copied <==> rc[t[j].host] == 1)
  }

  lemma CountedStep(rc: seq<nat>, rc1: seq<nat>, rc2: seq<nat>, t: seq<Entry>, j: nat, addend: int)
    requires j < |t| && addend in {-1, 0, 1}
    requires Counted(rc, rc1, t[..j], addend)
    requires |rc2| == |rc1| && forall k: nat :: k < |rc1| ==> rc2[k] == rc1[k] + Scaled(addend, Refs(t[j], k))
    ensures Counted(rc, rc2, t[..j + 1], addend)
  {
    forall k: nat | k < |rc|
      ensures rc2[k] == rc[k] + Scaled(addend, TablePaths(t[..j + 1], k))
    {
      assert t[..j + 1][..j] == t[..j];
    }
  }

  lemma FlagsStep(rc1: seq<nat>, rc2: seq<nat>, t: seq<Entry>, t': seq<Entry>, e: Entry, addend: int)
    requires |t'| < |t| && forall k: nat :: TablePaths(t, k) <= 1
    requires FlagsRight(rc1, t') && SameHosts(t[..|t'|], t')
    requires |rc2| == |rc1| && forall k: nat :: k < |rc1| ==> rc2[k] == rc1[k] + Scaled(addend, Refs(t[|t'|], k))
    requires e.host == t[|t'|].host < |rc2|
    requires (if e.host == 0 then e == t[|t'|] == Unused else e.copied <==> rc2[e.host] == 1)
    ensures FlagsRight(rc2, t' + [e]) && SameHosts(t[..|t'| + 1], t' + [e])
    ensures t' == t[..|t'|] && e == t[|t'|] ==> t' + [e] == t[..|t'| + 1]
  {
    hide TablePaths, FlagsRight, SameHosts;
    HostsDiffer(t, |t'|);
    HostsAre(t, t');
    FlagsElsewhere(rc1, rc2, t', e.host);
    FlagsAppend(rc2, t', e);
    HostsAppend(t, t', e);
  }

  lemma HostsAre(t: seq<Entry>, t': seq<Entry>)
    requires |t'| <= |t| && SameHosts(t[..|t'|], t')
    ensures forall x :: 0 <= x < |t'| ==> t'[x].host == t[x].host
  {
    assert forall x :: 0 <= x < |t'| ==> t[..|t'|][x] == t[x];
  }

  lemma HostsAppend(t: seq<Entry>, t': seq<Entry>, e: Entry)
    requires |t'| < |t| && SameHosts(t[..|t'|], t') && e.host == t[|t'|].host && (e.host == 0 ==> e == t[|t'|])
    ensures SameHosts(t[..|t'| + 1], t' + [e])
    ensures t' == t[..|t'|] && e == t[|t'|] ==> t' + [e] == t[..|t'| + 1]
  {
    assert t[..|t'| + 1] == t[..|t'|] + [t[|t'|]];
  }

  /** A count that changes for a cluster that t does not name leaves the flags of t right. */
  lemma FlagsElsewhere(rc1: seq<nat>, rc2: seq<nat>, t: seq<Entry>, h: nat)
    requires FlagsRight(rc1, t) && |rc2| == |rc1|
    requires forall k: nat :: k < |rc1| && (k != h || h == 0) && k != 0 ==> rc2[k] == rc1[k]
    requires forall x :: 0 <= x < |t| && t[x].host != 0 ==> t[x].host != h
    ensures FlagsRight(rc2, t)
  {
  }

  lemma FlagsAppend(rc: seq<nat>, t: seq<Entry>, e: Entry)
    requires FlagsRight(rc, t) && (e.host != 0 ==> e.host < |rc| && (e.copied <==> rc[e.host] == 1))
    ensures FlagsRight(rc, t + [e])
  {
  }

  lemma OneMoreFree(t: seq<Entry>, j: nat)
    requires j < |t|
    ensures forall k: nat :: TablePaths(t[..j + 1], k) == TablePaths(t[..j], k) + Refs(t[j], k)
    ensures forall k: nat :: TablePaths(t[..j + 1], k) <= TablePaths(t, k)
  {
    assert t[..j + 1][..j] == t[..j];
    forall k: nat
      ensures TablePaths(t[..j + 1], k) == TablePaths(t[..j], k) + Refs(t[j], k)
      ensures TablePaths(t[..j + 1], k) <= TablePaths(t, k)
    {
      TablePathsSplit(t, j, k);
    }
  }

  /** The entry at j adds its cluster to the count of the entries before it. */
  lemma OneMore(t: seq<Entry>, j: nat)
    requires j < |t| && forall k: nat :: TablePaths(t, k) <= 1
    ensures forall k: nat :: TablePaths(t[..j + 1], k) == TablePaths(t[..j], k) + Refs(t[j], k)
    ensures t[j].host != 0 ==> TablePaths(t[..j], t[j].host) == 0 && TablePaths(t, t[j].host) == 1
  {
    OneMoreFree(t, j);
    if t[j].host != 0 { TablePathsSplit(t, j, t[j].host); }
  }

  /** In a table that names no cluster twice, no entry before j names the cluster of entry j. */
  lemma HostsDiffer(t: seq<Entry>, j: nat)
    requires j < |t| && forall k: nat :: TablePaths(t, k) <= 1
    ensures forall x :: 0 <= x < j && t[x].host != 0 ==> t[x].host != t[j].host
  {
    forall x | 0 <= x < j && t[x].host != 0
      ensures t[x].host != t[j].host
    {
      if t[x].host == t[j].host { TablePathsTwo(t, x, j, t[x].host); }
    }
  }
}
