/**
  An image with nothing allocated, laid out as a new image is: header, level-1 table, refcount
  table, refcount blocks, and then clusters that are free. It is what runs start from, and shows
  that the invariant can be met for every cluster size, level-1 table and number of blocks.
 */
module Qcow2Fresh {
  import opened Arith
  import opened Qcow2Format
  import opened Qcow2Store
  import opened Qcow2Invariant
  import opened Qcow2SnapshotTable
  import opened Qcow2Header
  import opened Qcow2Image

  /**
    How large the image is: its clusters, the entries of its level-1 table, its refcount blocks, and,
    for the header, the bits of a byte offset in a cluster and the bytes of the guest disk.
   */
  datatype Layout = Layout(clusters: nat, l1Size: pos, blocks: nat, bits: nat, size: nat)

  function RefcountTableAt(y: Layout): nat { 1 + L1Clusters(y.l1Size) }

  /** Clusters in use from the start. */
  function Used(y: Layout): nat { RefcountTableAt(y) + 1 + y.blocks }

  /** The clusters fit, and every one of them has a refcount block. */
  ghost predicate LaidOut(y: Layout) {
    Used(y) <= y.clusters && forall k: nat :: k < y.clusters ==> Div(k, BLOCK_COUNTS) < y.blocks
  }

  /** Refcount block b: one count for each cluster in use, none for the rest. */
  function FreshCounts(y: Layout, b: nat): (c: seq<nat>)
    ensures |c| == BLOCK_COUNTS
    ensures forall x :: 0 <= x < |c| ==> c[x] == if BLOCK_COUNTS * b + x < Used(y) then 1 else 0
  {
    seq(BLOCK_COUNTS, x => if BLOCK_COUNTS * b + x < Used(y) then 1 else 0)
  }

  function NoEntries(n: nat): (t: seq<Entry>)
    ensures |t| == n && forall x :: 0 <= x < n ==> t[x] == Unused
  {
    seq(n, _ => Unused)
  }

  function FreshHeader(y: Layout): (h: seq<byte>)
    ensures |h| == QCOW_HEADER_SIZE
  {
    ToBe(QCOW_MAGIC, 4) + ToBe(QCOW_VERSION, 4) + ToBe(0, 8) + ToBe(0, 4) + ToBe(y.bits, 4) + ToBe(y.size, 8)
    + ToBe(0, 4) + ToBe(y.l1Size, 4) + ToBe(CLUSTER_BYTES, 8) + ToBe(RefcountTableAt(y) * CLUSTER_BYTES, 8)
    + ToBe(1, 4) + ToBe(0, 4) + ToBe(0, 8)
  }

  function FreshCluster(y: Layout, k: nat): Cluster {
    if 1 <= k < RefcountTableAt(y) then L1(NoEntries(L2_SIZE))
    else if RefcountTableAt(y) < k < Used(y) then Counts(FreshCounts(y, k - RefcountTableAt(y) - 1))
    else Blob(if k == 0 then FreshHeader(y) else [])
  }

  function FreshDisk(y: Layout): (d: Disk)
    ensures |d| == y.clusters && forall k :: 0 <= k < |d| ==> d[k] == FreshCluster(y, k)
  {
    seq(y.clusters, k requires k >= 0 => FreshCluster(y, k))
  }

  /** Where the refcount blocks are. */
  function FreshTable(y: Layout): (rt: seq<nat>)
    ensures |rt| == y.blocks && forall b :: 0 <= b < |rt| ==> rt[b] == RefcountTableAt(y) + 1 + b
  {
    seq(y.blocks, (b: nat) => RefcountTableAt(y) + 1 + b)
  }

  lemma FreshBlocks(y: Layout)
    requires LaidOut(y)
    ensures BlocksOk(FreshDisk(y), FreshTable(y))
    ensures forall k: nat :: k < y.clusters ==> CountsOf(FreshDisk(y), FreshTable(y))[k] == if k < Used(y) then 1 else 0
  {
    hide RefcountTableAt, Div, Mod;
    forall k: nat | k < y.clusters
      ensures CountAt(FreshDisk(y), FreshTable(y), k) == if k < Used(y) then 1 else 0
    {
      DivModDef(k, BLOCK_COUNTS);
    }
  }

  ghost function FreshImg(y: Layout): Img {
    Img(FreshDisk(y), CountsOf(FreshDisk(y), FreshTable(y)), NoEntries(y.l1Size), 1, [], 0, 0,
        RefcountTableAt(y), 1, FreshTable(y), FreshHeader(y), [])
  }

  lemma {:induction false} NothingMet(d: Disk, n: nat, k: nat)
    ensures RootPaths(d, NoEntries(n), k) == 0
    decreases n
  {
    if n > 0 {
      NothingMet(d, n - 1, k);
      assert NoEntries(n)[..n - 1] == NoEntries(n - 1);
    }
  }

  lemma FreshReads(y: Layout)
    requires LaidOut(y)
    ensures ReadL1(FreshDisk(y), 1, y.l1Size) == NoEntries(y.l1Size)
  {
    hide Div, Mod, CeilDiv;
    forall i | 0 <= i < y.l1Size
      ensures L1At(FreshDisk(y), 1, i) == Unused
    {
      CeilDivAbove(y.l1Size, i, L2_SIZE);
    }
  }

  lemma FreshRegions(y: Layout)
    requires LaidOut(y)
    ensures Regions(FreshImg(y)) && forall k: nat :: Meta(FreshImg(y), k) == if k < Used(y) then 1 else 0
  {
    hide CeilDiv, CountsOf, ReadL1, Div, FreshHeader;
    FreshReads(y);
    var img := FreshImg(y);
    forall k: nat
      ensures k in img.blocks <==> RefcountTableAt(y) < k < Used(y)
    {
      if RefcountTableAt(y) < k < Used(y) { assert img.blocks[k - RefcountTableAt(y) - 1] == k; }
    }
  }

  /** The invariant holds of the image with nothing allocated. */
  lemma FreshInv(y: Layout)
    requires LaidOut(y)
    ensures Inv(FreshImg(y), [])
  {
    hide Regions, Meta, CountsOf, Used, LaidOut;
    var img := FreshImg(y);
    FreshRegions(y);
    FreshBlocks(y);
    forall k: nat
      ensures RootPaths(img.disk, img.l1, k) == 0
    {
      NothingMet(img.disk, y.l1Size, k);
    }
  }

  /** All clusters behind those in use are room. */
  lemma FreshRoom(y: Layout)
    requires LaidOut(y)
    ensures Room(Space(CountsOf(FreshDisk(y), FreshTable(y)), 0), y.clusters - Used(y))
  {
    hide CountsOf;
    FreshBlocks(y);
    assert UnusedFrom(CountsOf(FreshDisk(y), FreshTable(y)), Used(y));
  }

  /** Opens an image with nothing allocated. */
  method Fresh(y: Layout, backing: seq<Sector>) returns (im: Image)
    requires LaidOut(y)
    ensures fresh(im) && fresh(im.st) && im.Ready([]) && im.View() == FreshImg(y) && im.backing == backing
    ensures Room(im.st.Spare(), y.clusters - Used(y))
  {
    hide Inv, CountsOf, Room, LaidOut, Regions;
    FreshBlocks(y);
    FreshReads(y);
    FreshInv(y);
    FreshRoom(y);
    NoTable();
    var st := new Store(FreshDisk(y), FreshTable(y));
    im := new Image(st, backing, 1, y.l1Size, [], 0, 0, RefcountTableAt(y), 1, FreshHeader(y), []);
  }

  /** Every number in the header fits its field, and the level-1 table covers the guest disk. */
  ghost predicate Describable(y: Layout) {
    && 9 <= y.bits <= 16 && 1 < y.size < Limit(8) && y.l1Size < Limit(4)
    && y.clusters * CLUSTER_BYTES < Limit(8)
    && CeilDiv(y.size, Pow2(2 * y.bits - 3)) <= y.l1Size
  }

  /** Where each field of the header is; it begins with the letters QFI and byte 0xfb. */
  lemma FreshLayout(y: Layout)
    ensures var h := FreshHeader(y);
            && h[0..4] == [81, 70, 73, 251] && h[4..8] == ToBe(2, 4)
            && h[8..16] == ToBe(0, 8) && h[16..20] == ToBe(0, 4)
            && h[20..24] == ToBe(y.bits, 4) && h[24..32] == ToBe(y.size, 8) && h[32..36] == ToBe(0, 4)
            && h[36..40] == ToBe(y.l1Size, 4) && h[40..48] == ToBe(CLUSTER_BYTES, 8)
            && h[48..56] == ToBe(RefcountTableAt(y) * CLUSTER_BYTES, 8) && h[56..60] == ToBe(1, 4)
            && h[60..64] == ToBe(0, 4)
  {
    hide ToBe, RefcountTableAt;
    MagicIs();
  }

  lemma MagicIs()
    ensures ToBe(QCOW_MAGIC, 4) == [81, 70, 73, 251]
  {
    assert ToBe(81, 1) == ToBe(0, 0) + [81];
    assert ToBe(0x5146, 2) == ToBe(81, 1) + [70];
    assert ToBe(0x51_4649, 3) == ToBe(0x5146, 2) + [73];
  }

  lemma FreshFields(y: Layout)
    requires LaidOut(y) && Describable(y)
    ensures var h := FreshHeader(y);
            && Field(h, 0, 4) == QCOW_MAGIC && Field(h, 4, 4) == QCOW_VERSION && Field(h, SIZE_AT, 8) == y.size
            && Field(h, CLUSTER_BITS_AT, 4) == y.bits && Field(h, CRYPT_AT, 4) == 0
  {
    hide ToBe, FromBe, RefcountTableAt, CeilDiv, Pow2;
    var h := FreshHeader(y);
    LimitIs();
    assert h[0..4] == ToBe(QCOW_MAGIC, 4) && h[4..8] == ToBe(QCOW_VERSION, 4);
    assert h[20..24] == ToBe(y.bits, 4) && h[24..32] == ToBe(y.size, 8) && h[32..36] == ToBe(0, 4);
    BeRoundTrip(QCOW_MAGIC, 4);
    BeRoundTrip(QCOW_VERSION, 4);
    BeRoundTrip(y.bits, 4);
    BeRoundTrip(y.size, 8);
    BeRoundTrip(0, 4);
  }

  lemma LimitIs()
    ensures Limit(4) == 0x1_0000_0000 && Limit(8) == 0x1_0000_0000_0000_0000
  {
    assert Limit(2) == 0x1_0000;
    assert Limit(6) == 0x1_0000_0000_0000;
  }

  lemma FreshTail(y: Layout)
    ensures FreshHeader(y)[64..72] == ToBe(0, 8)
  {
    hide ToBe;
  }

  lemma FreshPlaces(y: Layout)
    requires LaidOut(y) && Describable(y)
    ensures var h := FreshHeader(y);
            && Field(h, L1_SIZE_AT, 4) == y.l1Size && Field(h, L1_OFFSET_AT, 8) == 1 * CLUSTER_BYTES
            && Field(h, RT_OFFSET_AT, 8) == RefcountTableAt(y) * CLUSTER_BYTES && Field(h, RT_CLUSTERS_AT, 4) == 1
            && Field(h, NB_SNAPSHOTS_AT, 4) == 0 && Field(h, SNAPSHOTS_OFFSET_AT, 8) == 0
  {
    hide ToBe, FromBe, RefcountTableAt, CeilDiv, Pow2;
    var h := FreshHeader(y);
    LimitIs();
    Monotone(RefcountTableAt(y), y.clusters);
    Monotone(1, y.clusters);
    assert h[36..40] == ToBe(y.l1Size, 4) && h[40..48] == ToBe(CLUSTER_BYTES, 8);
    assert h[48..56] == ToBe(RefcountTableAt(y) * CLUSTER_BYTES, 8) && h[56..60] == ToBe(1, 4);
    assert h[60..64] == ToBe(0, 4);
    FreshTail(y);
    BeRoundTrip(y.l1Size, 4);
    BeRoundTrip(CLUSTER_BYTES, 8);
    BeRoundTrip(RefcountTableAt(y) * CLUSTER_BYTES, 8);
    BeRoundTrip(1, 4);
    BeRoundTrip(0, 4);
    BeRoundTrip(0, 8);
  }

  /** The file of an image with nothing allocated says all of this itself. */
  lemma FreshFiled(y: Layout)
    requires LaidOut(y) && Describable(y)
    ensures Filed(FreshImg(y)) && Sized(FreshImg(y))
  {
    hide Field, FreshHeader, CeilDiv, CountsOf, RefcountTableAt, Pow2, LaidOut;
    LimitIs();
    FreshFields(y);
    FreshPlaces(y);
    NoTable();
  }

  lemma NoTable()
    ensures CeilDiv(0, CLUSTER_BYTES) == 0
  {
  }
}
