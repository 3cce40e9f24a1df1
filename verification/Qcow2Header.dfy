/**
  What of an open qcow2 image can be found in its file again: the header in cluster 0, and the
  bytes of the snapshot table cut into clusters.
 */
module Qcow2Header {
  import opened Arith
  import opened Qcow2Format
  import opened Qcow2Invariant
  import opened Qcow2SnapshotTable
  import Qcow2SnapshotFile

  const QCOW_MAGIC: nat := 0x5146_49fb
  const QCOW_VERSION: nat := 2
  const QCOW_CRYPT_AES: nat := 1

  // Where the fields of the header are.
  const CLUSTER_BITS_AT: nat := 20
  const SIZE_AT: nat := 24
  const CRYPT_AT: nat := 32
  const L1_SIZE_AT: nat := 36
  const L1_OFFSET_AT: nat := 40
  const RT_OFFSET_AT: nat := 48
  const RT_CLUSTERS_AT: nat := 56
  const NB_SNAPSHOTS_AT: nat := 60
  const SNAPSHOTS_OFFSET_AT: nat := 64

  /** The big-endian number in the w bytes at o. */
  function Field(h: seq<byte>, o: nat, w: nat): nat {
    if o + w <= |h| then FromBe(h[o..o + w]) else 0
  }

  /** The bytes from o on were overwritten with data. */
  function Patched(h: seq<byte>, o: nat, data: seq<byte>): (h': seq<byte>)
    requires o + |data| <= |h|
    ensures |h'| == |h|
  {
    h[..o] + data + h[o + |data|..]
  }

  lemma PatchedField(h: seq<byte>, o: nat, v: nat, w: nat)
    requires o + w <= |h| && v < Limit(w)
    ensures Field(Patched(h, o, ToBe(v, w)), o, w) == v
  {
    BeRoundTrip(v, w);
    assert Patched(h, o, ToBe(v, w))[o..o + w] == ToBe(v, w);
  }

  lemma PatchedElsewhere(h: seq<byte>, o: nat, data: seq<byte>, o': nat, w': nat)
    requires o + |data| <= |h| && (o' + w' <= o || o + |data| <= o')
    ensures Field(Patched(h, o, data), o', w') == Field(h, o', w')
  {
    if o' + w' <= |h| { assert Patched(h, o, data)[o'..o' + w'] == h[o'..o' + w']; }
  }

  /** What qcow_open asks of a header before it uses it. */
  predicate Accepts(h: seq<byte>) {
    && QCOW_HEADER_SIZE <= |h|
    && Field(h, 0, 4) == QCOW_MAGIC && Field(h, 4, 4) == QCOW_VERSION
    && Field(h, SIZE_AT, 8) > 1 && 9 <= Field(h, CLUSTER_BITS_AT, 4) <= 16 && Field(h, CRYPT_AT, 4) <= QCOW_CRYPT_AES
    && CeilDiv(Field(h, SIZE_AT, 8), Pow2(2 * Field(h, CLUSTER_BITS_AT, 4) - 3)) <= Field(h, L1_SIZE_AT, 4)
  }

  // ----- the snapshot table in clusters

  /** A snapshot as its record has it: the level-1 table by the byte it starts at. */
  function InBytes(sn: Snapshot): Snapshot { sn.(l1Offset := sn.l1Offset * CLUSTER_BYTES) }

  function AllInBytes(sns: seq<Snapshot>): (r: seq<Snapshot>)
    ensures |r| == |sns| && forall i :: 0 <= i < |sns| ==> r[i] == InBytes(sns[i])
  {
    seq(|sns|, i requires 0 <= i < |sns| => InBytes(sns[i]))
  }

  function InClusters(sn: Snapshot): Snapshot { sn.(l1Offset := Div(sn.l1Offset, CLUSTER_BYTES)) }

  function AllInClusters(sns: seq<Snapshot>): (r: seq<Snapshot>)
    ensures |r| == |sns| && forall i :: 0 <= i < |sns| ==> r[i] == InClusters(sns[i])
  {
    seq(|sns|, i requires 0 <= i < |sns| => InClusters(sns[i]))
  }

  lemma BytesAndBack(sns: seq<Snapshot>)
    ensures AllInClusters(AllInBytes(sns)) == sns && TableSize(AllInBytes(sns)) == TableSize(sns)
  {
    hide Div;
    forall i | 0 <= i < |sns|
      ensures Div(sns[i].l1Offset * CLUSTER_BYTES, CLUSTER_BYTES) == sns[i].l1Offset
    {
      StartsAt(sns[i].l1Offset);
    }
    SameTableEnd(AllInBytes(sns), sns);
  }

  lemma StartsAt(k: nat)
    ensures Div(k * CLUSTER_BYTES, CLUSTER_BYTES) == k
  {
    DivShift(k * CLUSTER_BYTES, k, CLUSTER_BYTES);
  }

  function Flat(bs: seq<seq<byte>>): seq<byte> {
    if bs == [] then [] else bs[0] + Flat(bs[1..])
  }

  /** The bytes of n clusters, one by one. */
  function Cut(b: seq<byte>, n: nat): (bs: seq<seq<byte>>)
    requires |b| == n * CLUSTER_BYTES
    ensures |bs| == n && Flat(bs) == b
    decreases n
  {
    if n == 0 then []
    else
      CutRest(|b|, n);
      [b[..CLUSTER_BYTES]] + Cut(b[CLUSTER_BYTES..], n - 1)
  }

  lemma CutRest(m: nat, n: pos)
    requires m == n * CLUSTER_BYTES
    ensures m >= CLUSTER_BYTES && m - CLUSTER_BYTES == (n - 1) * CLUSTER_BYTES
  {
    assert n * CLUSTER_BYTES == (n - 1) * CLUSTER_BYTES + CLUSTER_BYTES;
    if n > 1 { ProductAbove(n - 1, CLUSTER_BYTES); }
  }

  /** The table of the snapshots, in as many clusters as it needs; what lies between records is arbitrary. */
  method BuildTable(sns: seq<Snapshot>, n: nat) returns (bs: seq<seq<byte>>)
    requires n == TableNeed(sns)
    ensures |bs| == n && Qcow2SnapshotFile.Holds(Flat(bs), 0, AllInBytes(sns))
  {
    hide Div, CeilDiv, AllInBytes, TableSize;
    BytesAndBack(sns);
    CeilDivCovers(TableSize(sns), CLUSTER_BYTES);
    if n > 0 { ProductAbove(n, CLUSTER_BYTES); }
    var file := new byte[n * CLUSTER_BYTES];
    Qcow2SnapshotFile.WriteTable(file, 0, AllInBytes(sns));
    bs := Cut(file[..], n);
  }

  lemma CeilDivCovers(m: nat, d: pos)
    ensures m <= CeilDiv(m, d) * d
  {
    DivModDef(m + d - 1, d);
  }

  // ----- an image and its file

  /** The fixed part of the header tells where the tables are. */
  ghost predicate HeaderRight(img: Img) {
    && Accepts(img.header)
    && Field(img.header, L1_SIZE_AT, 4) == |img.l1|
    && Field(img.header, L1_OFFSET_AT, 8) == img.l1Offset * CLUSTER_BYTES
    && Field(img.header, RT_OFFSET_AT, 8) == img.rtOffset * CLUSTER_BYTES
    && Field(img.header, RT_CLUSTERS_AT, 4) == img.rtClusters
  }

  /** The header names the snapshot table, and the table has the snapshots. */
  ghost predicate TableRight(img: Img) {
    && Field(img.header, NB_SNAPSHOTS_AT, 4) == |img.snapshots|
    && Field(img.header, SNAPSHOTS_OFFSET_AT, 8) == img.snapOffset * CLUSTER_BYTES
    && img.snapClusters == TableNeed(img.snapshots)
    && Qcow2SnapshotFile.Holds(Flat(img.table), 0, AllInBytes(img.snapshots))
  }

  ghost predicate Filed(img: Img) { HeaderRight(img) && TableRight(img) }

  /** Offsets in the file fit 64 bits, and the number of snapshots fits 32. */
  ghost predicate Sized(img: Img) {
    |img.disk| * CLUSTER_BYTES < Limit(8) && |img.snapshots| < Limit(4)
  }

  /** What the caller gave for a snapshot fits its record. */
  ghost predicate Recordable(sn: Snapshot) {
    && sn.vmStateSize < Limit(4) && sn.dateSec < Limit(4) && sn.dateNsec < Limit(4) && sn.vmClockNsec < Limit(8)
    && Nameable(sn.id) && Nameable(sn.name)
  }

  ghost predicate Nameable(s: string) { |s| < Limit(2) && CString(s) }

  /** All that an open image knows is in its file, in a form that can be read back. */
  ghost predicate Saved(img: Img) {
    Filed(img) && Sized(img) && forall n :: 0 <= n < |img.snapshots| ==> Recordable(img.snapshots[n])
  }

  lemma SavedSame(img: Img, img': Img)
    requires Saved(img) && |img'.disk| == |img.disk| && |img'.l1| == |img.l1|
    requires img' == img.(disk := img'.disk, rc := img'.rc, l1 := img'.l1)
    ensures Saved(img')
  {
    hide Field, TableNeed, Flat, Limit, Accepts, Recordable;
  }

  /** The header with the snapshot table entered. */
  function Entered(h: seq<byte>, nb: nat, offset: nat): (h': seq<byte>)
    requires QCOW_HEADER_SIZE <= |h|
  {
    Patched(Patched(h, SNAPSHOTS_OFFSET_AT, ToBe(offset, 8)), NB_SNAPSHOTS_AT, ToBe(nb, 4))
  }

  lemma EnteredLength(h: seq<byte>, nb: nat, offset: nat)
    requires QCOW_HEADER_SIZE <= |h|
    ensures |Entered(h, nb, offset)| == |h|
  {
  }

  /** Cluster 0 holds the header, and no refcount block. */
  ghost predicate HeaderInPlace(img: Img) {
    && 0 < |img.disk| && img.disk[0] == Blob(img.header) && QCOW_HEADER_SIZE <= |img.header| && 0 !in img.blocks
  }

  lemma EnteredFields(h: seq<byte>, nb: nat, offset: nat)
    requires QCOW_HEADER_SIZE <= |h| && nb < Limit(4) && offset < Limit(8)
    ensures Field(Entered(h, nb, offset), NB_SNAPSHOTS_AT, 4) == nb
    ensures Field(Entered(h, nb, offset), SNAPSHOTS_OFFSET_AT, 8) == offset
    ensures SameFixed(h, Entered(h, nb, offset))
  {
    hide Field, Patched, Limit, ToBe;
    var g := Patched(h, SNAPSHOTS_OFFSET_AT, ToBe(offset, 8));
    PatchedField(h, SNAPSHOTS_OFFSET_AT, offset, 8);
    PatchedField(g, NB_SNAPSHOTS_AT, nb, 4);
    PatchedElsewhere(g, NB_SNAPSHOTS_AT, ToBe(nb, 4), SNAPSHOTS_OFFSET_AT, 8);
    forall o: nat, w: nat | o + w <= NB_SNAPSHOTS_AT
      ensures Field(Entered(h, nb, offset), o, w) == Field(h, o, w)
    {
      PatchedElsewhere(h, SNAPSHOTS_OFFSET_AT, ToBe(offset, 8), o, w);
      PatchedElsewhere(g, NB_SNAPSHOTS_AT, ToBe(nb, 4), o, w);
    }
  }

  /** Only the fields of the snapshot table differ. */
  ghost predicate SameFixed(h: seq<byte>, h': seq<byte>) {
    |h'| == |h| && forall o: nat, w: nat :: o + w <= NB_SNAPSHOTS_AT ==> Field(h', o, w) == Field(h, o, w)
  }

  lemma FixedKept(img: Img, img': Img)
    requires HeaderRight(img) && SameFixed(img.header, img'.header)
    requires |img'.l1| == |img.l1| && img'.l1Offset == img.l1Offset
    requires img'.rtOffset == img.rtOffset && img'.rtClusters == img.rtClusters
    ensures HeaderRight(img')
  {
    hide Field, CeilDiv, Pow2;
  }

  /** With the new table written and entered in the header, the file has the snapshots. */
  lemma TableFiled(img: Img, img': Img)
    requires HeaderRight(img) && Sized(img') && img'.snapOffset <= |img'.disk|
    requires img'.header == Entered(img.header, |img'.snapshots|, img'.snapOffset * CLUSTER_BYTES)
    requires |img'.l1| == |img.l1| && img'.l1Offset == img.l1Offset
    requires img'.rtOffset == img.rtOffset && img'.rtClusters == img.rtClusters
    requires img'.snapClusters == TableNeed(img'.snapshots)
    requires Qcow2SnapshotFile.Holds(Flat(img'.table), 0, AllInBytes(img'.snapshots))
    ensures Filed(img')
  {
    hide *;
    LongEnough(img);
    OffsetFits(img');
    EnteredFields(img.header, |img'.snapshots|, img'.snapOffset * CLUSTER_BYTES);
    FixedKept(img, img');
    FiledIs(img');
  }

  lemma FiledIs(img: Img)
    requires HeaderRight(img)
    requires Field(img.header, NB_SNAPSHOTS_AT, 4) == |img.snapshots|
    requires Field(img.header, SNAPSHOTS_OFFSET_AT, 8) == img.snapOffset * CLUSTER_BYTES
    requires img.snapClusters == TableNeed(img.snapshots)
    requires Qcow2SnapshotFile.Holds(Flat(img.table), 0, AllInBytes(img.snapshots))
    ensures Filed(img)
  {
  }

  lemma LongEnough(img: Img)
    requires HeaderRight(img)
    ensures QCOW_HEADER_SIZE <= |img.header|
  {
  }

  lemma OffsetFits(img: Img)
    requires Sized(img) && img.snapOffset <= |img.disk|
    ensures img.snapOffset * CLUSTER_BYTES < Limit(8) && |img.snapshots| < Limit(4)
  {
    hide Limit;
    Monotone(img.snapOffset, |img.disk|);
  }

  lemma Monotone(a: nat, b: nat)
    requires a <= b
    ensures a * CLUSTER_BYTES <= b * CLUSTER_BYTES
  {
  }
}
