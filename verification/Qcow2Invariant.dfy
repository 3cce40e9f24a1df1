/**
  The global invariant of a qcow2 image: what check_refcounts looks for, the COPIED
  flags, and the separation of metadata, tables and data that makes writing safe.
  An image is a value here; the lemmas say which changes of it keep the invariant
  and what they do to the guest disks of the image and of its snapshots.
 */
module Qcow2Invariant {
  import opened Arith
  import opened Qcow2Format
  import opened Qcow2Store

  datatype Img = Img(
    disk: Disk, rc: seq<nat>,
    l1: seq<Entry>, l1Offset: nat,
    snapshots: seq<Snapshot>, snapOffset: nat, snapClusters: nat,
    rtOffset: nat, rtClusters: nat, blocks: seq<nat>,
    header: seq<byte>, table: seq<seq<byte>>)  // the bytes of the header cluster and of the snapshot table

  /** Clusters [first, first + n) of d' are alike those of d, or equal to them. */
  lemma ReadL1Stays(d: Disk, d': Disk, offset: nat, n: nat)
    requires |d| == |d'| && forall c :: offset <= c < offset + L1Clusters(n) && c < |d| ==> Alike(d[c], d'[c])
    ensures SameHosts(ReadL1(d, offset, n), ReadL1(d', offset, n))
    ensures (forall c :: offset <= c < offset + L1Clusters(n) && c < |d| ==> d[c] == d'[c])
              ==> ReadL1(d, offset, n) == ReadL1(d', offset, n)
  {
    forall i | 0 <= i < n
      ensures Div(i, L2_SIZE) < L1Clusters(n)
    {
      CeilDivAbove(n, i, L2_SIZE);
    }
  }

  // ----- references, as a walk of the whole image counts them

  function SnapMeta(sns: seq<Snapshot>, k: nat): nat {
    if sns == [] then 0
    else SnapMeta(sns[..|sns| - 1], k) + var sn := sns[|sns| - 1]; Within(k, sn.l1Offset, L1Clusters(sn.l1Size))
  }

  /** References from the header, the refcount table and the refcount blocks. */
  function FixedRefs(img: Img, k: nat): nat {
    (if k == 0 then 1 else 0) + Within(k, img.rtOffset, img.rtClusters) + (if k in img.blocks then 1 else 0)
  }

  /** References to metadata clusters: the fixed ones, level-1 tables and the snapshot table. */
  function Meta(img: Img, k: nat): nat {
    FixedRefs(img, k) + Within(k, img.l1Offset, L1Clusters(|img.l1|))
    + SnapMeta(img.snapshots, k) + Within(k, img.snapOffset, img.snapClusters)
  }

  /** References found by walking the trees of all snapshots. */
  function SnapPaths(d: Disk, sns: seq<Snapshot>, k: nat): nat {
    if sns == [] then 0
    else SnapPaths(d, sns[..|sns| - 1], k) + RootPaths(d, SnapL1(d, sns[|sns| - 1]), k)
  }

  function Without(sns: seq<Snapshot>, n: nat): seq<Snapshot>
    requires n < |sns|
  {
    sns[..n] + sns[n + 1..]
  }

  lemma {:induction false} SnapPathsSplit(d: Disk, sns: seq<Snapshot>, n: nat, k: nat)
    requires n < |sns|
    ensures SnapPaths(d, sns, k) == SnapPaths(d, Without(sns, n), k) + RootPaths(d, SnapL1(d, sns[n]), k)
  {
    hide RootPaths, SnapL1;
    var last := |sns| - 1;
    if n == last {
      assert Without(sns, n) == sns[..last];
    } else {
      SnapPathsSplit(d, sns[..last], n, k);
      var rest := Without(sns, n);
      assert rest[..|rest| - 1] == Without(sns[..last], n) && rest[|rest| - 1] == sns[last];
    }
  }

  lemma {:induction false} SnapMetaSplit(sns: seq<Snapshot>, n: nat, k: nat)
    requires n < |sns|
    ensures SnapMeta(sns, k)
         == SnapMeta(Without(sns, n), k) + Within(k, sns[n].l1Offset, L1Clusters(sns[n].l1Size))
  {
    hide Within, L1Clusters;
    var last := |sns| - 1;
    if n == last {
      assert Without(sns, n) == sns[..last];
    } else {
      SnapMetaSplit(sns[..last], n, k);
      var rest := Without(sns, n);
      assert rest[..|rest| - 1] == Without(sns[..last], n) && rest[|rest| - 1] == sns[last];
    }
  }

  // ----- the invariant

  ghost predicate L1Region(d: Disk, offset: nat, n: nat) {
    && offset + L1Clusters(n) <= |d|
    && (forall c :: offset <= c < offset + L1Clusters(n) ==> d[c].L1? && |d[c].entries| == L2_SIZE)
  }

  /** Metadata is where the image says, of the right kind, and no two parts of it overlap. */
  ghost predicate Regions(img: Img) {
    && |img.rc| == |img.disk| && 0 < |img.l1|
    && (forall k: nat :: Meta(img, k) <= 1)
    && (forall k: nat :: FixedRefs(img, k) > 0 ==> k < |img.disk| && (img.disk[k].Blob? || img.disk[k].Counts?))
    && img.disk[0] == Blob(img.header) && QCOW_HEADER_SIZE <= |img.header|
    && img.snapOffset + img.snapClusters <= |img.disk| && |img.table| == img.snapClusters
    && (forall k :: img.snapOffset <= k < img.snapOffset + img.snapClusters ==>
          img.disk[k] == Blob(img.table[k - img.snapOffset]))
    && L1Region(img.disk, img.l1Offset, |img.l1|)
    && (forall n :: 0 <= n < |img.snapshots| ==> SnapOk(img, img.snapshots[n]))
    && ReadL1(img.disk, img.l1Offset, |img.l1|) == img.l1
  }

  ghost predicate SnapOk(img: Img, sn: Snapshot) {
    sn.l1Size == |img.l1| && L1Region(img.disk, sn.l1Offset, sn.l1Size)
  }

  ghost predicate GoodTree(d: Disk, l1: seq<Entry>) {
    RootOk(d, l1) && Tree(d, l1)
  }

  ghost predicate Trees(img: Img) {
    && GoodTree(img.disk, img.l1)
    && (forall n :: 0 <= n < |img.snapshots| ==> GoodTree(img.disk, SnapL1(img.disk, img.snapshots[n])))
  }

  /** All references to cluster k that a walk of the image finds. */
  function References(img: Img, k: nat): nat {
    Meta(img, k) + RootPaths(img.disk, img.l1, k) + SnapPaths(img.disk, img.snapshots, k)
  }

  /** Every count is the number of references, plus those an operation in progress still holds. */
  ghost predicate Exact(img: Img, pend: seq<Entry>) {
    forall k: nat :: k < |img.rc| ==> img.rc[k] == References(img, k) + TablePaths(pend, k)
  }

  /** In the active tree an entry carries COPIED exactly when its cluster is counted once. */
  ghost predicate Flags(img: Img) {
    && FlagsRight(img.rc, img.l1)
    && (forall i :: 0 <= i < |img.l1| && img.l1[i].host != 0 ==> FlagsRight(img.rc, Table(img.disk, img.l1[i].host)))
  }

  ghost predicate Inv(img: Img, pend: seq<Entry>) {
    Regions(img) && Trees(img) && Exact(img, pend) && Flags(img)
  }

  // ----- the guest disks of an image

  function Guest(img: Img, backing: seq<Sector>, s: nat): Sector {
    GuestAt(img.disk, img.l1, backing, s)
  }

  function SnapGuest(img: Img, backing: seq<Sector>, n: nat, s: nat): Sector
    requires n < |img.snapshots|
  {
    GuestAt(img.disk, SnapL1(img.disk, img.snapshots[n]), backing, s)
  }

  /** The snapshots of img are still those of img', with the same guest disks. */
  ghost predicate SnapsKept(img: Img, img': Img) {
    && img'.snapshots == img.snapshots
    && (forall n, backing, s: nat :: 0 <= n < |img.snapshots| ==>
        SnapGuest(img', backing, n, s) == SnapGuest(img, backing, n, s))
  }

  // ----- what no walk reaches

  /** No snapshot refers to k, neither from its tree nor as part of its level-1 table. */
  ghost predicate SnapFree(img: Img, k: nat) {
    k != 0 && SnapMeta(img.snapshots, k) == 0 && SnapPaths(img.disk, img.snapshots, k) == 0
  }

  /** Nothing outside the active tree refers to k. */
  ghost predicate Private(img: Img, k: nat) {
    SnapFree(img, k) && Meta(img, k) == 0
  }

  lemma SnapPathsZero(d: Disk, sns: seq<Snapshot>, k: nat)
    requires SnapPaths(d, sns, k) == 0
    ensures forall n :: 0 <= n < |sns| ==> RootPaths(d, SnapL1(d, sns[n]), k) == 0
  {
    forall n | 0 <= n < |sns|
      ensures RootPaths(d, SnapL1(d, sns[n]), k) == 0
    {
      SnapPathsSplit(d, sns, n, k);
    }
  }

  lemma SnapMetaAt(sns: seq<Snapshot>, n: nat, k: nat)
    requires n < |sns| && Within(k, sns[n].l1Offset, L1Clusters(sns[n].l1Size)) == 1
    ensures SnapMeta(sns, k) >= 1
  {
    SnapMetaSplit(sns, n, k);
  }

  lemma {:induction false} SnapPathsSame(d: Disk, d': Disk, sns: seq<Snapshot>, k: nat)
    requires forall n :: 0 <= n < |sns| ==> RootPaths(d', SnapL1(d', sns[n]), k) == RootPaths(d, SnapL1(d, sns[n]), k)
    ensures SnapPaths(d', sns, k) == SnapPaths(d, sns, k)
  {
    if sns != [] { SnapPathsSame(d, d', sns[..|sns| - 1], k); }
  }

  /** Clusters outside w are the same, but for the values of refcount blocks. */
  ghost predicate SameOutside(d: Disk, d': Disk, w: set<nat>) {
    && |d| == |d'|
    && (forall c :: 0 <= c < |d| && c !in w ==> if d[c].Counts? then d'[c].Counts? else d'[c] == d[c])
  }

  lemma SameIsAlike(d: Disk, d': Disk, w: set<nat>)
    requires SameOutside(d, d', w)
    ensures AlikeOutside(d, d', w)
  {
  }

  /** The snapshot L1 tables survive a write to clusters that are not part of them. */
  lemma SnapL1Stays(img: Img, d': Disk, w: set<nat>, n: nat)
    requires n < |img.snapshots| && SnapOk(img, img.snapshots[n])
    requires AlikeOutside(img.disk, d', w) && forall k :: k in w ==> SnapMeta(img.snapshots, k) == 0
    ensures SameHosts(SnapL1(img.disk, img.snapshots[n]), SnapL1(d', img.snapshots[n]))
    ensures L1Region(d', img.snapshots[n].l1Offset, img.snapshots[n].l1Size)
  {
    var sn := img.snapshots[n];
    forall c | sn.l1Offset <= c < sn.l1Offset + L1Clusters(sn.l1Size)
      ensures c < |img.disk| && Alike(img.disk[c], d'[c])
    {
      assert img.disk[c].L1?;
      if c in w { SnapMetaAt(img.snapshots, n, c); }
    }
    ReadL1Stays(img.disk, d', sn.l1Offset, sn.l1Size);
  }

  /** A write to clusters that no snapshot refers to leaves every snapshot as it was, whatever flags and counts do. */
  lemma SnapshotFrame(img: Img, img': Img, w: set<nat>)
    requires AlikeOutside(img.disk, img'.disk, w) && img'.snapshots == img.snapshots
    requires forall n :: 0 <= n < |img.snapshots| ==> SnapOk(img, img.snapshots[n])
    requires forall n :: 0 <= n < |img.snapshots| ==> GoodTree(img.disk, SnapL1(img.disk, img.snapshots[n]))
    requires forall k :: k in w ==> SnapFree(img, k)
    ensures forall n :: 0 <= n < |img.snapshots| ==> GoodTree(img'.disk, SnapL1(img'.disk, img.snapshots[n]))
    ensures forall n :: 0 <= n < |img.snapshots| ==>
              L1Region(img'.disk, img.snapshots[n].l1Offset, img.snapshots[n].l1Size)
    ensures forall k: nat :: SnapPaths(img'.disk, img.snapshots, k) == SnapPaths(img.disk, img.snapshots, k)
    ensures SnapsKept(img, img')
  {
    hide GoodTree, L1Region, GuestAt, SnapL1, SnapOk, SnapFree, AlikeOutside;
    forall n | 0 <= n < |img.snapshots|
      ensures GoodTree(img'.disk, SnapL1(img'.disk, img.snapshots[n]))
      ensures L1Region(img'.disk, img.snapshots[n].l1Offset, img.snapshots[n].l1Size)
      ensures forall k: nat ::
                RootPaths(img'.disk, SnapL1(img'.disk, img.snapshots[n]), k)
                    == RootPaths(img.disk, SnapL1(img.disk, img.snapshots[n]), k)
      ensures forall backing, s: nat :: SnapGuest(img', backing, n, s) == SnapGuest(img, backing, n, s)
    {
      OneSnapshotFrame(img, img', w, n);
    }
    forall k: nat
      ensures SnapPaths(img'.disk, img.snapshots, k) == SnapPaths(img.disk, img.snapshots, k)
    {
      SnapPathsSame(img.disk, img'.disk, img.snapshots, k);
    }
  }

  lemma OneSnapshotFrame(img: Img, img': Img, w: set<nat>, n: nat)
    requires AlikeOutside(img.disk, img'.disk, w) && img'.snapshots == img.snapshots
    requires n < |img.snapshots| && SnapOk(img, img.snapshots[n])
    requires GoodTree(img.disk, SnapL1(img.disk, img.snapshots[n]))
    requires forall k :: k in w ==> SnapFree(img, k)
    ensures GoodTree(img'.disk, SnapL1(img'.disk, img.snapshots[n]))
    ensures L1Region(img'.disk, img.snapshots[n].l1Offset, img.snapshots[n].l1Size)
    ensures forall k: nat ::
              RootPaths(img'.disk, SnapL1(img'.disk, img.snapshots[n]), k)
                  == RootPaths(img.disk, SnapL1(img.disk, img.snapshots[n]), k)
    ensures forall backing, s: nat :: SnapGuest(img', backing, n, s) == SnapGuest(img, backing, n, s)
  {
    hide L1Region, RootOk, AlikeOutside, SameHosts, GuestAt, RootPaths, ReadL1;
    SnapL1Stays(img, img'.disk, w, n);
    var l1, l1' := SnapL1(img.disk, img.snapshots[n]), SnapL1(img'.disk, img.snapshots[n]);
    forall k | k in w
      ensures k != 0 && RootPaths(img.disk, l1, k) == 0
    {
      SnapPathsZero(img.disk, img.snapshots, k);
    }
    PathsStay(img.disk, l1, img'.disk, l1', w);
    RootStays(img.disk, l1, img'.disk, l1', w);
    forall backing, s: nat
      ensures SnapGuest(img', backing, n, s) == SnapGuest(img, backing, n, s)
    {
      GuestStays(img.disk, l1, img'.disk, l1', w, backing, s);
    }
  }
}
