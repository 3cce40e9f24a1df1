/** Taking, restoring and deleting snapshots: what each does to the image, as changes of values. */
module Qcow2SnapshotSteps {
  import opened Arith
  import opened Qcow2Format
  import opened Qcow2Store
  import opened Qcow2Invariant
  import opened Qcow2Steps
  import opened Qcow2Writing
  import opened Qcow2Pass

  /** The invariant without the flags. */
  ghost predicate Core(img: Img, pend: seq<Entry>) {
    Regions(img) && Trees(img) && Exact(img, pend)
  }

  /** Every cluster of the tree under l1 once, as pending references. */
  function Flatten(d: Disk, l1: seq<Entry>): seq<Entry> {
    if l1 == [] then []
    else var e := l1[|l1| - 1];
         Flatten(d, l1[..|l1| - 1]) + if e.host == 0 then [] else [e] + Table(d, e.host)
  }

  lemma {:induction false} FlattenPaths(d: Disk, l1: seq<Entry>, k: nat)
    ensures TablePaths(Flatten(d, l1), k) == RootPaths(d, l1, k)
  {
    if l1 != [] {
      var e := l1[|l1| - 1];
      FlattenPaths(d, l1[..|l1| - 1], k);
      TablePathsConcat(Flatten(d, l1[..|l1| - 1]), if e.host == 0 then [] else [e] + Table(d, e.host), k);
      TablePathsConcat([e], Table(d, e.host), k);
      TablePathsOne(e, k);
    }
  }

  // ----- a pass over a tree

  /** The clusters of a level-1 table of n entries at offset. */
  function L1Span(offset: nat, n: nat): set<nat> { Span(offset, L1Clusters(n)) }

  /** A level-1 cluster that is rewritten: part of nothing but level-1 tables outside the snapshot list. */
  ghost predicate Loose(img: Img, k: nat) {
    && SnapFree(img, k) && FixedRefs(img, k) == 0 && Within(k, img.snapOffset, img.snapClusters) == 0
    && RootPaths(img.disk, img.l1, k) == 0
  }

  /** Flags and counts changed anywhere, hosts nowhere, and the clusters of w were rewritten. */
  ghost predicate Reflagged(img: Img, img': Img, w: set<nat>) {
    && img' == img.(disk := img'.disk, rc := img'.rc, l1 := img'.l1) && |img'.rc| == |img.rc|
    && SameHosts(img.l1, img'.l1) && AlikeOutside(img.disk, img'.disk, w)
    && (forall k :: k in w ==> Loose(img, k))
    && L1Region(img'.disk, img.l1Offset, |img.l1|) && ReadL1(img'.disk, img.l1Offset, |img.l1|) == img'.l1
  }

  /** Metadata stays in order when flags change and loose clusters are rewritten as level-1 tables. */
  lemma RegionsReflagged(img: Img, img': Img, w: set<nat>)
    requires Regions(img) && img' == img.(disk := img'.disk, rc := img'.rc, l1 := img'.l1) && |img'.rc| == |img.rc|
    requires |img'.l1| == |img.l1| && AlikeOutside(img.disk, img'.disk, w)
    requires forall k :: k in w ==> Loose(img, k)
    requires L1Region(img'.disk, img.l1Offset, |img.l1|) && ReadL1(img'.disk, img.l1Offset, |img.l1|) == img'.l1
    requires forall n :: 0 <= n < |img.snapshots| ==>
               L1Region(img'.disk, img.snapshots[n].l1Offset, img.snapshots[n].l1Size)
    ensures Regions(img') && forall k: nat :: Meta(img', k) == Meta(img, k)
  {
    hide L1Region, SnapMeta, SnapPaths, RootPaths, ReadL1, L1Clusters;
    forall k: nat
      ensures Meta(img', k) == Meta(img, k) && FixedRefs(img', k) == FixedRefs(img, k)
    {
    }
    forall n | 0 <= n < |img.snapshots|
      ensures SnapOk(img', img'.snapshots[n])
    {
      assert SnapOk(img, img.snapshots[n]);
    }
    forall k | img.snapOffset <= k < img.snapOffset + img.snapClusters
      ensures img'.disk[k] == img.disk[k]
    {
      assert img.disk[k].Blob? && k !in w;
    }
    forall k: nat | FixedRefs(img, k) > 0
      ensures k < |img.disk| && (img'.disk[k].Blob? || img'.disk[k].Counts?)
    {
      assert k < |img.disk| && k !in w && Alike(img.disk[k], img'.disk[k]);
    }
  }

  lemma HostsLength(a: seq<Entry>, b: seq<Entry>)
    requires SameHosts(a, b)
    ensures |a| == |b|
  {
  }

  /** Such a change keeps structure, references, and every guest disk. */
  lemma ReflagStep(img: Img, img': Img, w: set<nat>)
    requires Regions(img) && Trees(img) && Reflagged(img, img', w)
    ensures Regions(img') && Trees(img') && SnapsKept(img, img') && SameGuest(img, img')
    ensures forall k: nat ::
              References(img', k) == References(img, k) &&
                  RootPaths(img'.disk, img'.l1, k) == RootPaths(img.disk, img.l1, k)
  {
    hide Regions, SnapMeta, SnapPaths, RootPaths, ReadL1, SameHosts, L1Region, SnapsKept, AlikeOutside, RootOk, GuestAt;
    RegionParts(img);
    SnapshotFrame(img, img', w);
    HostsLength(img.l1, img'.l1);
    RegionsReflagged(img, img', w);
    PathsStay(img.disk, img.l1, img'.disk, img'.l1, w);
    RootStays(img.disk, img.l1, img'.disk, img'.l1, w);
    forall backing, s: nat
      ensures Guest(img', backing, s) == Guest(img, backing, s)
    {
      GuestStays(img.disk, img.l1, img'.disk, img'.l1, w, backing, s);
    }
  }

  lemma RegionParts(img: Img)
    requires Regions(img)
    ensures forall n :: 0 <= n < |img.snapshots| ==> SnapOk(img, img.snapshots[n])
    ensures |img.rc| == |img.disk| && 0 < |img.l1|
    ensures L1Region(img.disk, img.l1Offset, |img.l1|) && ReadL1(img.disk, img.l1Offset, |img.l1|) == img.l1
  {
  }

  /** The clusters of the active level-1 table are loose. */
  lemma ActiveLoose(img: Img, k: nat)
    requires Regions(img) && Trees(img) && img.l1Offset <= k < img.l1Offset + L1Clusters(|img.l1|)
    ensures Loose(img, k) && k < |img.disk| && k !in img.blocks
  {
    hide Trees, SnapMeta, SnapPaths, RootPaths, ReadL1, L1Clusters;
    assert Meta(img, k) <= 1;
    MetaNotMet(img, k);
    RegionParts(img);
  }

  // ----- a new snapshot

  /** The image after everything in the active tree was counted once more and a table taken for the copy of l1. */
  ghost predicate ReadyToAdd(img: Img, first: nat) {
    && Inv(img, Flatten(img.disk, img.l1) + Run(first, L1Clusters(|img.l1|)))
    && first > 0 && first + L1Clusters(|img.l1|) <= |img.disk|
    && (forall k :: first <= k < first + L1Clusters(|img.l1|) ==> References(img, k) == 0)
    && L1Region(img.disk, first, |img.l1|) && ReadL1(img.disk, first, |img.l1|) == img.l1
  }

  lemma AddPaths(img: Img, sn: Snapshot, k: nat)
    ensures SnapPaths(img.disk, img.snapshots + [sn], k)
              == SnapPaths(img.disk, img.snapshots, k) + RootPaths(img.disk, SnapL1(img.disk, sn), k)
    ensures SnapMeta(img.snapshots + [sn], k)
              == SnapMeta(img.snapshots, k) + Within(k, sn.l1Offset, L1Clusters(sn.l1Size))
  {
    assert (img.snapshots + [sn])[..|img.snapshots|] == img.snapshots;
  }

  /** Listing the copy as a snapshot turns the pending references into references. */
  lemma AddStep(img: Img, sn: Snapshot)
    requires ReadyToAdd(img, sn.l1Offset) && sn.l1Size == |img.l1|
    ensures var img' := img.(snapshots := img.snapshots + [sn]);
            && Inv(img', []) && SameGuest(img, img')
            && (forall n, backing, s: nat :: 0 <= n < |img.snapshots| ==>
                SnapGuest(img', backing, n, s) == SnapGuest(img, backing, n, s))
            && (forall backing, s: nat :: SnapGuest(img', backing, |img.snapshots|, s) == Guest(img, backing, s))
            && (forall k: nat :: References(img', k) >= References(img, k))
  {
    hide SnapPaths, SnapMeta, RootPaths, L1Region, ReadL1, L1Clusters, Flatten, RootOk, Tree, TablePaths;
    var img' := img.(snapshots := img.snapshots + [sn]);
    var pend := Flatten(img.disk, img.l1) + Run(sn.l1Offset, L1Clusters(|img.l1|));
    forall k: nat
      ensures Meta(img', k) == Meta(img, k) + Within(k, sn.l1Offset, L1Clusters(sn.l1Size))
      ensures FixedRefs(img', k) == FixedRefs(img, k)
      ensures References(img', k) == References(img, k) + TablePaths(pend, k) && TablePaths([], k) == 0
    {
      AddPaths(img, sn, k);
      FlattenPaths(img.disk, img.l1, k);
      RunPaths(sn.l1Offset, L1Clusters(|img.l1|), k);
      TablePathsConcat(Flatten(img.disk, img.l1), Run(sn.l1Offset, L1Clusters(|img.l1|)), k);
      NoPaths(k);
    }
    forall k: nat
      ensures Meta(img', k) <= 1
    {
      if sn.l1Offset <= k < sn.l1Offset + L1Clusters(sn.l1Size) { assert References(img, k) == 0; }
    }
    assert Trees(img');
    forall n | 0 <= n < |img'.snapshots|
      ensures SnapOk(img', img'.snapshots[n])
    {
      if n < |img.snapshots| { assert SnapOk(img, img.snapshots[n]); }
    }
  }

  lemma NoPaths(k: nat)
    ensures TablePaths([], k) == 0
  {
  }

  // ----- the snapshot table

  lemma RunPathsAny(first: nat, n: nat, k: nat)
    requires n == 0 || first > 0
    ensures TablePaths(Run(first, n), k) == Within(k, first, n)
  {
    if n > 0 { RunPaths(first, n, k); }
  }

  /** A new snapshot table is in place; the clusters of the old one become the pending ones. */
  lemma TableSwapStep(img: Img, first: nat, bs: seq<seq<byte>>)
    requires Inv(img, Run(first, |bs|)) && (|bs| > 0 ==> first > 0) && first + |bs| <= |img.disk|
    requires forall k :: first <= k < first + |bs| ==> References(img, k) == 0 && img.disk[k] == Blob(bs[k - first])
    ensures (img.snapClusters > 0 ==> img.snapOffset > 0) && img.snapOffset + img.snapClusters <= |img.disk|
    ensures var img' := img.(snapOffset := first, snapClusters := |bs|, table := bs);
            && Inv(img', Run(img.snapOffset, img.snapClusters)) && SnapsKept(img, img') && SameGuest(img, img')
            && (forall k: nat :: Within(k, img.snapOffset, img.snapClusters) > 0 ==>
                RootPaths(img.disk, img.l1, k) == 0)
            && (forall k: nat ::
                  References(img', k) + Within(k, img.snapOffset, img.snapClusters)
                  == References(img, k) + Within(k, first, |bs|))
            && (forall k: nat :: k < |img.rc| && Within(k, img.snapOffset, img.snapClusters) > 0 ==> img.rc[k] >= 1)
  {
    hide SnapPaths, SnapMeta, RootPaths, L1Region, ReadL1, L1Clusters, RootOk, Tree, TablePaths, Flags;
    var n := |bs|;
    var img' := img.(snapOffset := first, snapClusters := n, table := bs);
    FlagsAgain(img, img');
    assert Meta(img, 0) <= 1;
    forall k: nat
      ensures Meta(img', k) + Within(k, img.snapOffset, img.snapClusters) == Meta(img, k) + Within(k, first, n)
      ensures FixedRefs(img', k) == FixedRefs(img, k)
      ensures TablePaths(Run(first, n), k) == Within(k, first, n)
      ensures TablePaths(Run(img.snapOffset, img.snapClusters), k) == Within(k, img.snapOffset, img.snapClusters)
      ensures Within(k, img.snapOffset, img.snapClusters) > 0 ==> RootPaths(img.disk, img.l1, k) == 0
      ensures Meta(img', k) <= 1
    {
      RunPathsAny(first, n, k);
      RunPathsAny(img.snapOffset, img.snapClusters, k);
      if Within(k, img.snapOffset, img.snapClusters) > 0 { MetaNotMet(img, k); }
      if first <= k < first + n { assert References(img, k) == 0; }
    }
    forall m | 0 <= m < |img'.snapshots|
      ensures SnapOk(img', img'.snapshots[m])
    {
      assert SnapOk(img, img.snapshots[m]);
    }
  }

  lemma FlagsAgain(img: Img, img': Img)
    requires Flags(img) && img'.l1 == img.l1 && img'.disk == img.disk && img'.rc == img.rc
    ensures Flags(img')
  {
  }

  // ----- deleting

  /** Taking snapshot n off the list turns what it refers to into pending references. */
  lemma RemoveStep(img: Img, n: nat)
    requires Core(img, []) && n < |img.snapshots|
    ensures var sn := img.snapshots[n];
            var img' := img.(snapshots := Without(img.snapshots, n));
            && Core(img', Flatten(img.disk, SnapL1(img.disk, sn)) + Run(sn.l1Offset, L1Clusters(sn.l1Size)))
            && sn.l1Offset > 0 && SnapOk(img, sn) && GoodTree(img.disk, SnapL1(img.disk, sn))
            && (forall k :: k in L1Span(sn.l1Offset, sn.l1Size) ==>
                Loose(img', k) && Meta(img', k) == 0 && k < |img.disk|)
  {
    hide SnapPaths, SnapMeta, RootPaths, L1Region, ReadL1, L1Clusters, RootOk, Tree, TablePaths, Flatten;
    var sn := img.snapshots[n];
    var img' := img.(snapshots := Without(img.snapshots, n));
    var pend := Flatten(img.disk, SnapL1(img.disk, sn)) + Run(sn.l1Offset, L1Clusters(sn.l1Size));
    assert SnapOk(img, sn);
    RemoveSpan(img, n);
    forall k: nat
      ensures Meta(img', k) + Within(k, sn.l1Offset, L1Clusters(sn.l1Size)) == Meta(img, k)
      ensures FixedRefs(img', k) == FixedRefs(img, k)
      ensures References(img', k) + TablePaths(pend, k) == References(img, k) && TablePaths([], k) == 0
      ensures Within(k, sn.l1Offset, L1Clusters(sn.l1Size)) == 1 ==> Loose(img', k) && Meta(img', k) == 0
    {
      SnapPathsSplit(img.disk, img.snapshots, n, k);
      SnapMetaSplit(img.snapshots, n, k);
      FlattenPaths(img.disk, SnapL1(img.disk, sn), k);
      RunPaths(sn.l1Offset, L1Clusters(sn.l1Size), k);
      TablePathsConcat(Flatten(img.disk, SnapL1(img.disk, sn)), Run(sn.l1Offset, L1Clusters(sn.l1Size)), k);
      NoPaths(k);
      assert Meta(img, k) <= 1;
      if Within(k, sn.l1Offset, L1Clusters(sn.l1Size)) == 1 { MetaNotMet(img, k); }
    }
    forall m | 0 <= m < |img'.snapshots|
      ensures SnapOk(img', img'.snapshots[m]) && GoodTree(img'.disk, SnapL1(img'.disk, img'.snapshots[m]))
    {
      assert img'.snapshots[m] == img.snapshots[if m < n then m else m + 1];
      assert SnapOk(img, img'.snapshots[m]);
    }
  }

  lemma RemoveSpan(img: Img, n: nat)
    requires Regions(img) && n < |img.snapshots|
    ensures var sn := img.snapshots[n];
            sn.l1Offset > 0 && forall k :: k in L1Span(sn.l1Offset, sn.l1Size) ==>
                k < |img.disk| && Within(k, sn.l1Offset, L1Clusters(sn.l1Size)) == 1
  {
    hide SnapMeta, ReadL1, L1Clusters;
    var sn := img.snapshots[n];
    assert SnapOk(img, sn);
    CeilDivPositive(sn.l1Size, L2_SIZE);
    assert L1Clusters(sn.l1Size) == CeilDiv(sn.l1Size, L2_SIZE) by { L1ClustersIs(sn.l1Size); }
    assert img.disk[sn.l1Offset].L1?;
  }

  lemma L1ClustersIs(n: nat)
    ensures L1Clusters(n) == CeilDiv(n, L2_SIZE)
  {
  }

  // ----- the passes of the snapshot operations

  /** A pass over the tree of the level-1 table at offset was completed. */
  ghost predicate RootUpdated(d: Disk, rc: seq<nat>, root: seq<Entry>, offset: nat, addend: int, d': Disk,
      rc': seq<nat>, root': seq<Entry>) {
    && SameHosts(root, root') && TreeCounted(d, rc, rc', root, addend) && TreeFlags(d', rc', root')
    && AlikeOutside(d, d', L1Span(offset, |root|))
    && (forall c :: 0 <= c < |d| && c !in L1Span(offset, |root|) && d[c].L1? ==> d'[c] == d[c])
    && L1Region(d', offset, |root|) && ReadL1(d', offset, |root|) == root'
  }

  /** A pass over the active tree. */
  ghost predicate ActiveUpdated(img: Img, img': Img, addend: int) {
    && img' == img.(disk := img'.disk, rc := img'.rc, l1 := img'.l1)
    && RootUpdated(img.disk, img.rc, img.l1, img.l1Offset, addend, img'.disk, img'.rc, img'.l1)
  }

  lemma ActiveReflagged(img: Img, img': Img, addend: int)
    requires Regions(img) && Trees(img) && ActiveUpdated(img, img', addend)
    ensures Reflagged(img, img', L1Span(img.l1Offset, |img.l1|)) && Flags(img')
  {
    hide Regions, Trees, L1Clusters, ReadL1, L1Region, AlikeOutside, Loose, SameHosts, RootPaths;
    forall k | k in L1Span(img.l1Offset, |img.l1|)
      ensures Loose(img, k)
    {
      ActiveLoose(img, k);
    }
  }

  /** Counting the active tree once more: all of it is pending once. */
  lemma CountedOnce(img: Img, img': Img)
    requires Inv(img, []) && ActiveUpdated(img, img', 1)
    ensures Inv(img', Flatten(img'.disk, img'.l1)) && SnapsKept(img, img') && SameGuest(img, img')
    ensures |img'.l1| == |img.l1| && forall k: nat :: References(img', k) == References(img, k)
  {
    hide Regions, Trees, L1Span, ReadL1, L1Region, AlikeOutside, SameHosts, RootPaths, SnapPaths, Meta, TablePaths,
         SameGuest, SnapsKept, Flatten, Flags, TreeFlags;
    ActiveReflagged(img, img', 1);
    ReflagStep(img, img', L1Span(img.l1Offset, |img.l1|));
    HostsLength(img.l1, img'.l1);
    forall k: nat | k < |img'.rc|
      ensures img'.rc[k] == References(img', k) + TablePaths(Flatten(img'.disk, img'.l1), k)
    {
      FlattenPaths(img'.disk, img'.l1, k);
      NoPaths(k);
    }
  }

  /** A pass that only refreshes the flags of the active tree. */
  lemma FlagsRefreshed(img: Img, img': Img, pend: seq<Entry>)
    requires Core(img, pend) && ActiveUpdated(img, img', 0)
    ensures Inv(img', pend) && SnapsKept(img, img') && SameGuest(img, img')
    ensures |img'.l1| == |img.l1|
    ensures forall k: nat ::
              References(img', k) == References(img, k) &&
                  RootPaths(img'.disk, img'.l1, k) == RootPaths(img.disk, img.l1, k)
  {
    hide Regions, Trees, L1Span, ReadL1, L1Region, AlikeOutside, SameHosts, RootPaths, SnapPaths, Meta, TablePaths,
         SameGuest, SnapsKept, Flags, TreeFlags;
    ActiveReflagged(img, img', 0);
    ReflagStep(img, img', L1Span(img.l1Offset, |img.l1|));
    HostsLength(img.l1, img'.l1);
  }

  /** Giving up the tree of a snapshot that is off the list: only its level-1 table is still pending. */
  lemma TreeGivenUp(img: Img, img': Img, sn: Snapshot, root: seq<Entry>, root': seq<Entry>)
    requires Core(img, Flatten(img.disk, root) + Run(sn.l1Offset, L1Clusters(sn.l1Size)))
    requires |root| == sn.l1Size && img' == img.(disk := img'.disk, rc := img'.rc)
    requires forall k :: k in L1Span(sn.l1Offset, sn.l1Size) ==> Loose(img, k) && Meta(img, k) == 0
    requires RootUpdated(img.disk, img.rc, root, sn.l1Offset, -1, img'.disk, img'.rc, root')
    ensures Core(img', Run(sn.l1Offset, L1Clusters(sn.l1Size))) && SnapsKept(img, img') && SameGuest(img, img')
    ensures forall k: nat ::
              References(img', k) == References(img, k) &&
                  RootPaths(img'.disk, img'.l1, k) == RootPaths(img.disk, img.l1, k)
  {
    hide Regions, Trees, ReadL1, L1Region, RootPaths, SnapPaths, Meta, TablePaths, SameGuest, SnapsKept, TreeFlags,
         L1Clusters, Flatten, Loose;
    var w := L1Span(sn.l1Offset, sn.l1Size);
    ActiveL1Kept(img, img'.disk, w);
    ReflagStep(img, img', w);
    forall k: nat | k < |img'.rc|
      ensures img'.rc[k] == References(img', k) + TablePaths(Run(sn.l1Offset, L1Clusters(sn.l1Size)), k)
    {
      FlattenPaths(img.disk, root, k);
      TablePathsConcat(Flatten(img.disk, root), Run(sn.l1Offset, L1Clusters(sn.l1Size)), k);
    }
  }

  lemma ActiveL1Kept(img: Img, d': Disk, w: set<nat>)
    requires Regions(img) && |d'| == |img.disk| && forall k :: k in w ==> Meta(img, k) == 0
    requires forall c :: 0 <= c < |img.disk| && c !in w && img.disk[c].L1? ==> d'[c] == img.disk[c]
    ensures L1Region(d', img.l1Offset, |img.l1|) && ReadL1(d', img.l1Offset, |img.l1|) == img.l1
  {
    hide SnapMeta, ReadL1, L1Clusters;
    forall c | img.l1Offset <= c < img.l1Offset + L1Clusters(|img.l1|)
      ensures d'[c] == img.disk[c] && img.disk[c].L1?
    {
      assert img.disk[c].L1? && Meta(img, c) > 0;
    }
    ReadL1Stays(img.disk, d', img.l1Offset, |img.l1|);
  }

  // ----- going back to a snapshot

  lemma {:induction false} AlikeTrans(a: Cluster, b: Cluster, c: Cluster)
    requires Alike(a, b) && Alike(b, c)
    ensures Alike(a, c)
  {
  }

  lemma AlikeOutsideTrans(a: Disk, b: Disk, c: Disk, w: set<nat>)
    requires AlikeOutside(a, b, w) && AlikeOutside(b, c, w)
    ensures AlikeOutside(a, c, w)
  {
    forall k | 0 <= k < |a| && k !in w
      ensures Alike(a[k], c[k])
    {
      AlikeTrans(a[k], b[k], c[k]);
    }
  }

  /**
    The active tree was given up (img1), its level-1 table was replaced by that of snapshot n (img2),
    and the tree that it has now was counted (img3).
   */
  ghost predicate WentBack(img: Img, img1: Img, img2: Img, img3: Img, n: nat) {
    && n < |img.snapshots|
    && ActiveUpdated(img, img1, -1)
    && img2 == img1.(disk := img2.disk, l1 := SnapL1(img1.disk, img.snapshots[n]))
    && AlikeOutside(img1.disk, img2.disk, L1Span(img.l1Offset, |img.l1|))
    && ActiveUpdated(img2, img3, 1) && |img2.l1| == |img.l1|
  }

  lemma GotoStructure(img: Img, img1: Img, img2: Img, img3: Img, n: nat)
    requires Inv(img, []) && WentBack(img, img1, img2, img3, n)
    ensures SnapsKept(img, img3) && Regions(img3) && Trees(img3)
    ensures forall backing, s: nat :: Guest(img3, backing, s) == SnapGuest(img, backing, n, s)
    ensures forall k: nat ::
              RootPaths(img3.disk, img3.l1, k) == RootPaths(img.disk, SnapL1(img.disk, img.snapshots[n]), k)
    ensures forall k: nat ::
              RootPaths(img2.disk, img2.l1, k) == RootPaths(img.disk, SnapL1(img.disk, img.snapshots[n]), k)
    ensures forall k: nat ::
              Meta(img3, k) == Meta(img, k) &&
                  SnapPaths(img3.disk, img3.snapshots, k) == SnapPaths(img.disk, img.snapshots, k)
  {
    hide Regions, Trees, ReadL1, L1Region, AlikeOutside, RootPaths, SnapPaths, SnapsKept, TreeFlags, Loose,
         TreeCounted, SnapMeta, GuestAt, SameHosts, Exact, Flags, RootOk, GoodTree;
    var w := L1Span(img.l1Offset, |img.l1|);
    GotoDisks(img, img1, img2, img3, n);
    RegionParts(img);
    TreesParts(img);
    forall k | k in w
      ensures Loose(img, k) && SnapFree(img, k)
    {
      ActiveLoose(img, k);
      LooseIsFree(img, k);
    }
    SnapshotFrame(img, img3, w);
    var l1 := SnapL1(img.disk, img.snapshots[n]);
    SnapAvoids(img, n, w);
    RootOfTree(img.disk, l1);
    PathsStay(img.disk, l1, img3.disk, img3.l1, w);
    PathsStay(img.disk, l1, img2.disk, img2.l1, w);
    RootStays(img.disk, l1, img3.disk, img3.l1, w);
    TreeSame(img.disk, l1, img3.disk, img3.l1);
    forall backing, s: nat
      ensures Guest(img3, backing, s) == SnapGuest(img, backing, n, s)
    {
      GuestStays(img.disk, l1, img3.disk, img3.l1, w, backing, s);
    }
    RegionsReflagged(img, img3, w);
    assert Trees(img3) by { TreesFrom(img3); }
  }

  lemma RootOfTree(d: Disk, l1: seq<Entry>)
    requires GoodTree(d, l1)
    ensures RootOk(d, l1) && Tree(d, l1)
  {
  }

  lemma TreesFrom(img: Img)
    requires GoodTree(img.disk, img.l1)
    requires forall n :: 0 <= n < |img.snapshots| ==> GoodTree(img.disk, SnapL1(img.disk, img.snapshots[n]))
    ensures Trees(img)
  {
  }

  lemma TreeSame(d: Disk, l1: seq<Entry>, d': Disk, l1': seq<Entry>)
    requires Tree(d, l1) && RootOk(d', l1') && forall k: nat :: RootPaths(d', l1', k) == RootPaths(d, l1, k)
    ensures GoodTree(d', l1')
  {
  }

  lemma LooseIsFree(img: Img, k: nat)
    requires Loose(img, k)
    ensures SnapFree(img, k)
  {
  }

  lemma SnapAvoids(img: Img, n: nat, w: set<nat>)
    requires n < |img.snapshots| && forall k :: k in w ==> SnapFree(img, k)
    ensures Avoids(img.disk, SnapL1(img.disk, img.snapshots[n]), w)
  {
    forall k | k in w
      ensures k != 0 && RootPaths(img.disk, SnapL1(img.disk, img.snapshots[n]), k) == 0
    {
      SnapPathsZero(img.disk, img.snapshots, k);
    }
  }

  /** The disks of the four stages, and the level-1 table that results. */
  lemma GotoDisks(img: Img, img1: Img, img2: Img, img3: Img, n: nat)
    requires Inv(img, []) && WentBack(img, img1, img2, img3, n)
    ensures var w := L1Span(img.l1Offset, |img.l1|);
            && AlikeOutside(img.disk, img2.disk, w) && AlikeOutside(img.disk, img3.disk, w)
            && SameHosts(SnapL1(img.disk, img.snapshots[n]), img2.l1) &&
                SameHosts(SnapL1(img.disk, img.snapshots[n]), img3.l1)
            && |img3.l1| == |img.l1| && L1Region(img3.disk, img.l1Offset, |img.l1|) &&
                ReadL1(img3.disk, img.l1Offset, |img.l1|) == img3.l1
            && img3 == img.(disk := img3.disk, rc := img3.rc, l1 := img3.l1) && |img3.rc| == |img.rc|
  {
    hide Trees, L1Span, ReadL1, L1Region, AlikeOutside, RootPaths, SnapPaths, TreeFlags, SnapMeta, Exact, Flags;
    var w := L1Span(img.l1Offset, |img.l1|);
    AlikeOutsideTrans(img.disk, img1.disk, img2.disk, w);
    AlikeOutsideTrans(img.disk, img2.disk, img3.disk, w);
    RegionParts(img);
    forall k | k in w
      ensures SnapMeta(img.snapshots, k) == 0
    {
      SpanMeta(img, k);
    }
    SnapL1Stays(img, img1.disk, w, n);
    assert SameHosts(SnapL1(img.disk, img.snapshots[n]), img2.l1);
    HostsTrans(SnapL1(img.disk, img.snapshots[n]), img2.l1, img3.l1);
  }

  lemma SpanMeta(img: Img, k: nat)
    requires Regions(img) && k in L1Span(img.l1Offset, |img.l1|)
    ensures SnapMeta(img.snapshots, k) == 0
  {
    assert Meta(img, k) <= 1;
  }

  lemma HostsTrans(a: seq<Entry>, b: seq<Entry>, c: seq<Entry>)
    requires SameHosts(a, b) && SameHosts(b, c)
    ensures SameHosts(a, c)
  {
  }

  /** Going back to snapshot n makes the active guest disk that of the snapshot and leaves all snapshots alone. */
  lemma GotoStep(img: Img, img1: Img, img2: Img, img3: Img, n: nat)
    requires Inv(img, []) && WentBack(img, img1, img2, img3, n)
    ensures Inv(img3, []) && SnapsKept(img, img3) && ZerosKept(img.rc, img3.rc)
    ensures forall backing, s: nat :: Guest(img3, backing, s) == SnapGuest(img, backing, n, s)
  {
    hide Regions, Trees, ReadL1, L1Region, AlikeOutside, RootPaths, SnapPaths, SnapsKept, SnapMeta, GuestAt, Meta,
         SnapL1, L1Span;
    GotoStructure(img, img1, img2, img3, n);
    forall k: nat | k < |img3.rc|
      ensures img3.rc[k] == References(img3, k) + TablePaths([], k)
    {
      assert img.rc[k] == References(img, k) + TablePaths([], k);
    }
    SnapshotZeros(img, img3, n);
  }

  /** No unused cluster gets a count. */
  ghost predicate ZerosKept(rc: seq<nat>, rc': seq<nat>) {
    |rc'| == |rc| && forall k :: 0 <= k < |rc| && rc[k] == 0 ==> rc'[k] == 0
  }

  /** Making the tree of a snapshot the active one meets only clusters that are in use. */
  lemma SnapshotZeros(img: Img, img3: Img, n: nat)
    requires n < |img.snapshots| && Exact(img, []) && Exact(img3, []) && |img3.rc| == |img.rc|
    requires forall k: nat ::
               RootPaths(img3.disk, img3.l1, k) == RootPaths(img.disk, SnapL1(img.disk, img.snapshots[n]), k)
    requires forall k: nat ::
               Meta(img3, k) == Meta(img, k) &&
                   SnapPaths(img3.disk, img3.snapshots, k) == SnapPaths(img.disk, img.snapshots, k)
    ensures ZerosKept(img.rc, img3.rc)
  {
    hide RootPaths, SnapPaths, Meta, SnapL1;
    forall k: nat | k < |img.rc| && img.rc[k] == 0
      ensures img3.rc[k] == 0
    {
      assert img.rc[k] == References(img, k) + TablePaths([], k);
      SnapPathsSplit(img.disk, img.snapshots, n, k);
    }
  }

  /** Counting the active tree once more meets only clusters that are in use. */
  lemma CountedZeros(img: Img, img': Img)
    requires Inv(img, []) && ActiveUpdated(img, img', 1)
    ensures ZerosKept(img.rc, img'.rc)
  {
    hide Regions, Trees, Flags, RootPaths, SnapPaths, Meta, AlikeOutside, SameHosts, TreeFlags, ReadL1, L1Region;
    forall k: nat | k < |img.rc| && img.rc[k] == 0
      ensures img'.rc[k] == 0
    {
      assert img.rc[k] == References(img, k) + TablePaths([], k);
    }
  }

  lemma DroppedZeros(img: Img, img1: Img, img2: Img, img3: Img, n: nat)
    requires n < |img.snapshots| && DeleteFirst(img, img1, n) && ActiveUpdated(img1, img2, 0) && |img3.rc| == |img2.rc|
    requires forall k: nat :: k < |img2.rc| ==> img3.rc[k] <= img2.rc[k]
    ensures ZerosKept(img.rc, img3.rc)
  {
    hide RootPaths, AlikeOutside, SameHosts, TreeFlags, ReadL1, L1Region;
  }

  // ----- states on the way of the snapshot operations

  lemma PendSame(img: Img, pend: seq<Entry>, pend': seq<Entry>)
    requires Exact(img, pend) && forall k: nat :: TablePaths(pend, k) == TablePaths(pend', k)
    ensures Exact(img, pend')
  {
    hide References, TablePaths;
  }

  /** Clusters for n units of metadata were taken (n may be 0). */
  lemma MetaTaken(img: Img, img': Img, pend: seq<Entry>, first: nat, n: nat)
    requires Inv(img, pend) && Written(img, img', {}) && (n > 0 ==> first + n <= |img.rc|)
    requires forall k :: first <= k < first + n ==> img.rc[k] == 0
    requires forall k: nat :: k < |img.rc| ==> img'.rc[k] == img.rc[k] + Within(k, first, n)
    ensures n > 0 ==> first > 0 && first + n <= |img.disk|
    ensures Inv(img', pend + Run(first, n)) && SnapsKept(img, img') && SameGuest(img, img')
    ensures forall k: nat ::
              References(img', k) == References(img, k) &&
                  RootPaths(img'.disk, img'.l1, k) == RootPaths(img.disk, img.l1, k)
    ensures forall k :: first <= k < first + n ==> References(img, k) == 0
  {
    hide Regions, Trees, Exact, Flags, References, SnapsKept, RootPaths, TablePaths;
    RegionParts(img);
    assert Avoids(img.disk, img.l1, {});
    ActiveRootOk(img);
    GuestAvoids(img, img', {});
    ActiveStays(img, img', {});
    if n > 0 {
      AllocStep(img, img', pend, first, n);
    } else {
      assert pend + Run(first, n) == pend;
      assert img'.rc == img.rc;
      DataStep(img, img', {}, pend);
    }
  }

  lemma ActiveRootOk(img: Img)
    requires Trees(img)
    ensures RootOk(img.disk, img.l1)
  {
  }

  /** Writing into taken clusters changes nothing that is referred to. */
  lemma MetaWritten(img: Img, img': Img, pend: seq<Entry>, first: nat, n: nat)
    requires Inv(img, pend) && img' == img.(disk := img'.disk) && SameOutside(img.disk, img'.disk, Span(first, n))
    requires n > 0 ==> first > 0 && first + n <= |img.disk|
    requires forall k :: first <= k < first + n ==> References(img, k) == 0
    ensures Inv(img', pend) && SnapsKept(img, img') && SameGuest(img, img')
    ensures forall k: nat ::
              References(img', k) == References(img, k) &&
                  RootPaths(img'.disk, img'.l1, k) == RootPaths(img.disk, img.l1, k)
  {
    hide Regions, Trees, Exact, Flags, References, SnapsKept, RootPaths, SnapFree;
    var w := Span(first, n);
    forall k | k in w
      ensures Writable(img, img'.disk, k) && RootPaths(img.disk, img.l1, k) == 0 && k != 0
    {
      Unreferenced(img, k);
    }
    ActiveRootOk(img);
    GuestAvoids(img, img', w);
    ActiveStays(img, img', w);
    DataStep(img, img', w, pend);
  }

  /** img' has other bytes in the header, and is img elsewhere. */
  ghost predicate HeaderWritten(img: Img, img': Img) {
    && |img'.header| == |img.header| && 0 < |img.disk|
    && img' == img.(disk := img.disk[0 := Blob(img'.header)], header := img'.header)
  }

  /** Cluster 0 holds other bytes. */
  ghost predicate OtherBytes(d: Disk, d': Disk) {
    && |d'| == |d| > 0 && d[0].Blob? && d'[0].Blob?
    && forall c :: 0 < c < |d| ==> d'[c] == d[c]
  }

  /** Bytes that are no table and no data are met in no walk. */
  lemma {:induction false} BlobNotMet(d: Disk, d': Disk, l1: seq<Entry>, k: nat)
    requires OtherBytes(d, d')
    ensures RootPaths(d', l1, k) == RootPaths(d, l1, k)
  {
    if l1 != [] {
      BlobNotMet(d, d', l1[..|l1| - 1], k);
      var h := l1[|l1| - 1].host;
      assert Table(d', h) == Table(d, h);
    }
  }

  lemma BlobNoTable(d: Disk, d': Disk, offset: nat, n: nat)
    requires OtherBytes(d, d')
    ensures ReadL1(d', offset, n) == ReadL1(d, offset, n) && (L1Region(d, offset, n) ==> L1Region(d', offset, n))
  {
    forall i | 0 <= i < n
      ensures L1At(d', offset, i) == L1At(d, offset, i)
    {
    }
  }

  lemma BlobNoSubtree(d: Disk, d': Disk, l1: seq<Entry>)
    requires OtherBytes(d, d') && GoodTree(d, l1)
    ensures GoodTree(d', l1)
  {
    forall k: nat
      ensures RootPaths(d', l1, k) == RootPaths(d, l1, k)
    {
      BlobNotMet(d, d', l1, k);
    }
    forall i | 0 <= i < |l1|
      ensures SubtreeOk(d', l1[i])
    {
      assert SubtreeOk(d, l1[i]);
    }
  }

  lemma BlobNotRead(d: Disk, d': Disk, l1: seq<Entry>, backing: seq<Sector>, s: nat)
    requires OtherBytes(d, d')
    ensures GuestAt(d', l1, backing, s) == GuestAt(d, l1, backing, s)
  {
    hide Div, Mod;
    var g := Div(s, CLUSTER_SECTORS);
    var i := Div(g, L2_SIZE);
    if i < |l1| { assert Table(d', l1[i].host) == Table(d, l1[i].host); }
    assert HostOf(d', l1, g) == HostOf(d, l1, g);
  }

  /** Writing the header disturbs nothing. */
  lemma HeaderStep(img: Img, img': Img, pend: seq<Entry>)
    requires Inv(img, pend) && HeaderWritten(img, img')
    ensures Inv(img', pend) && SnapsKept(img, img') && SameGuest(img, img')
    ensures forall k: nat :: References(img', k) == References(img, k)
    ensures forall k: nat :: RootPaths(img'.disk, img'.l1, k) == RootPaths(img.disk, img.l1, k)
  {
    hide SnapMeta, SnapPaths, RootPaths, GuestAt, RootOk, Tree, TablePaths, Flags, L1Region, ReadL1, L1Clusters;
    var d, d' := img.disk, img'.disk;
    HeaderRegions(img, img');
    forall n | 0 <= n < |img.snapshots|
      ensures SnapL1(d', img.snapshots[n]) == SnapL1(d, img.snapshots[n])
      ensures GoodTree(d', SnapL1(d', img.snapshots[n]))
    {
      BlobNoTable(d, d', img.snapshots[n].l1Offset, img.snapshots[n].l1Size);
      BlobNoSubtree(d, d', SnapL1(d, img.snapshots[n]));
    }
    BlobNoSubtree(d, d', img.l1);
    forall k: nat
      ensures RootPaths(d', img.l1, k) == RootPaths(d, img.l1, k)
      ensures SnapPaths(d', img.snapshots, k) == SnapPaths(d, img.snapshots, k)
    {
      BlobNotMet(d, d', img.l1, k);
      forall n | 0 <= n < |img.snapshots|
        ensures RootPaths(d', SnapL1(d', img.snapshots[n]), k) == RootPaths(d, SnapL1(d, img.snapshots[n]), k)
      {
        BlobNotMet(d, d', SnapL1(d, img.snapshots[n]), k);
      }
      SnapPathsSame(d, d', img.snapshots, k);
    }
    forall l1, backing, s: nat
      ensures GuestAt(d', l1, backing, s) == GuestAt(d, l1, backing, s)
    {
      BlobNotRead(d, d', l1, backing, s);
    }
    HeaderFlags(img, img');
  }

  lemma HeaderFlags(img: Img, img': Img)
    requires Regions(img) && Flags(img) && HeaderWritten(img, img')
    ensures Flags(img')
  {
    forall i | 0 <= i < |img.l1|
      ensures Table(img'.disk, img.l1[i].host) == Table(img.disk, img.l1[i].host)
    {
    }
  }

  lemma HeaderRegions(img: Img, img': Img)
    requires Regions(img) && HeaderWritten(img, img')
    ensures Regions(img') && forall k: nat :: Meta(img', k) == Meta(img, k)
  {
    hide SnapMeta, L1Region, ReadL1, L1Clusters;
    var d, d' := img.disk, img'.disk;
    forall k: nat
      ensures Meta(img', k) == Meta(img, k) && FixedRefs(img', k) == FixedRefs(img, k) && Meta(img, 0) <= 1
    {
    }
    BlobNoTable(d, d', img.l1Offset, |img.l1|);
    forall n | 0 <= n < |img.snapshots|
      ensures SnapOk(img', img.snapshots[n])
    {
      assert SnapOk(img, img.snapshots[n]);
      BlobNoTable(d, d', img.snapshots[n].l1Offset, img.snapshots[n].l1Size);
    }
  }

  /**
    The snapshot table was rewritten: taken (img1), written (img2), entered in the header (img3), the
    old one given up (img4).
   */
  lemma SnapTableStep(img: Img, img1: Img, img2: Img, img3: Img, img4: Img, first: nat, bs: seq<seq<byte>>)
    requires Inv(img, []) && Written(img, img1, {}) && first + |bs| <= |img.rc| == |img.disk|
    requires forall k :: first <= k < first + |bs| ==> img.rc[k] == 0
    requires forall k: nat :: k < |img.rc| ==> img1.rc[k] == img.rc[k] + Within(k, first, |bs|)
    requires img2 == img1.(disk := img2.disk) && BlobsWritten(img1.disk, img2.disk, first, bs)
    requires HeaderWritten(img2, img3)
    requires Written(img3.(snapOffset := first, snapClusters := |bs|, table := bs), img4, {})
    requires forall k: nat :: k < |img2.rc| ==> img4.rc[k] == img2.rc[k] - Within(k, img.snapOffset, img.snapClusters)
    ensures Inv(img4, []) && SnapsKept(img, img4) && SameGuest(img, img4)
  {
    hide Regions, Trees, Exact, Flags, References, SnapsKept, SameGuest, RootPaths, TablePaths;
    var n := |bs|;
    MetaTaken(img, img1, [], first, n);
    assert [] + Run(first, n) == Run(first, n);
    MetaWritten(img1, img2, Run(first, n), first, n);
    HeaderStep(img2, img3, Run(first, n));
    TableSwapStep(img3, first, bs);
    var c := img3.(snapOffset := first, snapClusters := n, table := bs);
    forall k: nat
      ensures TablePaths(Run(img.snapOffset, img.snapClusters), k) == Within(k, img.snapOffset, img.snapClusters)
    {
      RunPathsAny(img.snapOffset, img.snapClusters, k);
    }
    FreeStep(c, img4, Run(img.snapOffset, img.snapClusters));
    ActiveRootOk(c);
    assert Avoids(c.disk, c.l1, {});
    GuestAvoids(c, img4, {});
    KeptTrans(img, img1, img2);
    KeptTrans(img, img2, img3);
    KeptTrans(img, img3, c);
    KeptTrans(img, c, img4);
  }

  lemma KeptTrans(a: Img, b: Img, c: Img)
    requires SnapsKept(a, b) && SnapsKept(b, c) && SameGuest(a, b) && SameGuest(b, c)
    ensures SnapsKept(a, c) && SameGuest(a, c)
  {
  }

  /** The old snapshot table can be given up. */
  lemma OldTableCounted(img: Img)
    requires Inv(img, [])
    ensures img.snapOffset + img.snapClusters <= |img.disk|
    ensures forall k: nat :: img.snapOffset <= k < img.snapOffset + img.snapClusters ==> k < |img.rc| && img.rc[k] >= 1
  {
    hide Trees, Flags, RootPaths, SnapPaths, SnapMeta, TablePaths;
    forall k: nat | img.snapOffset <= k < img.snapOffset + img.snapClusters
      ensures k < |img.rc| && img.rc[k] >= 1
    {
      assert img.disk[k].Blob?;
      assert img.rc[k] == References(img, k) + TablePaths([], k);
    }
  }

  /** No count exceeds the number of snapshots by more than one. */
  lemma CountsBound(img: Img)
    requires Inv(img, [])
    ensures forall k: nat :: k < |img.rc| ==> img.rc[k] <= |img.snapshots| + 1
  {
    hide Regions, Flags, RootPaths, SnapPaths, Meta, TablePaths;
    forall k: nat | k < |img.rc|
      ensures img.rc[k] <= |img.snapshots| + 1
    {
      NoPaths(k);
      SnapPathsBound(img.disk, img.snapshots, k);
      MetaOnce(img, k);
    }
  }

  lemma MetaOnce(img: Img, k: nat)
    requires Regions(img) && Trees(img)
    ensures Meta(img, k) == 0 || (Meta(img, k) == 1 && RootPaths(img.disk, img.l1, k) == 0 &&
              SnapPaths(img.disk, img.snapshots, k) == 0)
  {
    assert Meta(img, k) <= 1;
    if Meta(img, k) == 1 { MetaNotMet(img, k); }
  }

  lemma {:induction false} SnapPathsBound(d: Disk, sns: seq<Snapshot>, k: nat)
    requires forall n :: 0 <= n < |sns| ==> GoodTree(d, SnapL1(d, sns[n]))
    ensures SnapPaths(d, sns, k) <= |sns|
  {
    if sns != [] {
      SnapPathsBound(d, sns[..|sns| - 1], k);
      assert GoodTree(d, SnapL1(d, sns[|sns| - 1]));
    }
  }

  /** The active tree may be counted up or down. */
  lemma ActiveInBounds(img: Img, addend: int)
    requires Inv(img, []) && addend in {-1, 0, 1} && |img.snapshots| + 1 < MAX_REFCOUNT
    ensures InBounds(img.disk, img.rc, img.l1, addend) && GoodTree(img.disk, img.l1)
  {
    hide Regions, Flags, RootPaths, SnapPaths, Meta, TablePaths, RootOk;
    CountsBound(img);
    forall k: nat | k < |img.rc|
      ensures 0 <= img.rc[k] + Scaled(addend, RootPaths(img.disk, img.l1, k)) <= MAX_REFCOUNT
    {
      NoPaths(k);
      assert RootPaths(img.disk, img.l1, k) <= 1;
    }
  }

  /** A snapshot was listed: counted (img1), a table taken (img2) and written (img3). */
  lemma CreateStep(img: Img, img1: Img, img2: Img, img3: Img, sn: Snapshot)
    requires Inv(img, []) && ActiveUpdated(img, img1, 1) && Written(img1, img2, {})
    requires var n := L1Clusters(|img1.l1|); n > 0 && sn.l1Offset + n <= |img1.rc|
    requires forall k :: sn.l1Offset <= k < sn.l1Offset + L1Clusters(|img1.l1|) ==> img1.rc[k] == 0
    requires forall k: nat :: k < |img1.rc| ==> img2.rc[k] == img1.rc[k] + Within(k, sn.l1Offset, L1Clusters(|img1.l1|))
    requires img3 == img2.(disk := img3.disk) && SameOutside(img2.disk, img3.disk, L1Span(sn.l1Offset, |img1.l1|))
    requires L1Region(img3.disk, sn.l1Offset, |img1.l1|) && ReadL1(img3.disk, sn.l1Offset, |img1.l1|) == img1.l1
    requires sn.l1Size == |img1.l1|
    ensures var img' := img3.(snapshots := img.snapshots + [sn]);
            && Inv(img', []) && SameGuest(img, img') && |img1.l1| == |img.l1|
            && (forall m, backing, s: nat :: 0 <= m < |img.snapshots| ==>
                SnapGuest(img', backing, m, s) == SnapGuest(img, backing, m, s))
            && (forall backing, s: nat :: SnapGuest(img', backing, |img.snapshots|, s) == Guest(img, backing, s))
  {
    hide Regions, Trees, Exact, Flags, References, RootPaths, TablePaths, Flatten, L1Clusters, ReadL1, L1Region,
         GuestAt, RootUpdated;
    var n := L1Clusters(|img1.l1|);
    CountedOnce(img, img1);
    var pend := Flatten(img1.disk, img1.l1);
    MetaTaken(img1, img2, pend, sn.l1Offset, n);
    MetaWritten(img2, img3, pend + Run(sn.l1Offset, n), sn.l1Offset, n);
    forall k: nat
      ensures TablePaths(pend + Run(sn.l1Offset, n), k)
                == TablePaths(Flatten(img3.disk, img3.l1) + Run(sn.l1Offset, n), k)
    {
      TablePathsConcat(pend, Run(sn.l1Offset, n), k);
      TablePathsConcat(Flatten(img3.disk, img3.l1), Run(sn.l1Offset, n), k);
      FlattenPaths(img1.disk, img1.l1, k);
      FlattenPaths(img3.disk, img3.l1, k);
    }
    PendSame(img3, pend + Run(sn.l1Offset, n), Flatten(img3.disk, img3.l1) + Run(sn.l1Offset, n));
    AddStep(img3, sn);
    KeptTrans(img, img1, img2);
    KeptTrans(img, img2, img3);
  }

  /** The stage of going back at which the new tree is about to be counted. */
  lemma GotoMiddle(img: Img, img1: Img, img2: Img, n: nat)
    requires Inv(img, []) && |img.snapshots| + 1 < MAX_REFCOUNT && n < |img.snapshots| && ActiveUpdated(img, img1, -1)
    requires img2 == img1.(disk := img2.disk, l1 := SnapL1(img1.disk, img.snapshots[n]))
    requires AlikeOutside(img1.disk, img2.disk, L1Span(img.l1Offset, |img.l1|))
    ensures GoodTree(img2.disk, img2.l1) && InBounds(img2.disk, img2.rc, img2.l1, 1) && |img2.l1| == |img.l1| > 0
  {
    hide Regions, Trees, ReadL1, L1Region, AlikeOutside, RootPaths, SnapPaths, Loose, SnapMeta, Exact, Flags, RootOk,
         GoodTree, L1Span;
    var w := L1Span(img.l1Offset, |img.l1|);
    var l1 := SnapL1(img.disk, img.snapshots[n]);
    RegionParts(img);
    TreesParts(img);
    AlikeOutsideTrans(img.disk, img1.disk, img2.disk, w);
    forall k | k in w
      ensures SnapFree(img, k) && SnapMeta(img.snapshots, k) == 0
    {
      SpanLoose(img, k);
      LooseIsFree(img, k);
    }
    SnapL1Stays(img, img1.disk, w, n);
    SnapAvoids(img, n, w);
    RootOfTree(img.disk, l1);
    PathsStay(img.disk, l1, img2.disk, img2.l1, w);
    RootStays(img.disk, l1, img2.disk, img2.l1, w);
    TreeSame(img.disk, l1, img2.disk, img2.l1);
    CountsBound(img);
    forall k: nat | k < |img2.rc|
      ensures 0 <= img2.rc[k] + Scaled(1, RootPaths(img2.disk, img2.l1, k)) <= MAX_REFCOUNT
    {
      TreeOnce(img2.disk, img2.l1, k);
    }
  }

  lemma TreeOnce(d: Disk, l1: seq<Entry>, k: nat)
    requires GoodTree(d, l1)
    ensures RootPaths(d, l1, k) <= 1
  {
  }

  lemma SpanLoose(img: Img, k: nat)
    requires Regions(img) && Trees(img) && k in L1Span(img.l1Offset, |img.l1|)
    ensures Loose(img, k) && k < |img.disk|
  {
    hide Regions, Trees, Loose;
    ActiveLoose(img, k);
  }

  /** The tree of a listed snapshot may be given up. */
  lemma SnapInBounds(img: Img, n: nat)
    requires Inv(img, []) && n < |img.snapshots| && forall k: nat :: k < |img.rc| ==> img.rc[k] <= MAX_REFCOUNT
    ensures var sn := img.snapshots[n];
            && InBounds(img.disk, img.rc, SnapL1(img.disk, sn), -1) && GoodTree(img.disk, SnapL1(img.disk, sn))
            && L1Region(img.disk, sn.l1Offset, sn.l1Size) && sn.l1Size == |img.l1| > 0 && sn.l1Offset != img.l1Offset
  {
    hide Trees, Flags, RootPaths, SnapPaths, TablePaths, ReadL1, L1Clusters, GoodTree;
    var sn := img.snapshots[n];
    assert SnapOk(img, sn);
    TreesParts(img);
    forall k: nat | k < |img.rc|
      ensures 0 <= img.rc[k] + Scaled(-1, RootPaths(img.disk, SnapL1(img.disk, sn), k)) <= MAX_REFCOUNT
    {
      SnapPathsSplit(img.disk, img.snapshots, n, k);
      assert img.rc[k] == References(img, k) + TablePaths([], k);
    }
    L1ClustersIs(sn.l1Size);
    CeilDivPositive(sn.l1Size, L2_SIZE);
    assert Meta(img, img.l1Offset) <= 1;
    if sn.l1Offset == img.l1Offset { SnapMetaAt(img.snapshots, n, img.l1Offset); }
  }

  /** Snapshot n was deleted: its tree given up (img1), flags refreshed (img2), its table given up (img3). */
  lemma DeleteStep(img: Img, img1: Img, img2: Img, img3: Img, n: nat)
    requires Inv(img, []) && n < |img.snapshots| && DeleteFirst(img, img1, n)
    requires ActiveUpdated(img1, img2, 0)
    requires img3 == img2.(disk := img3.disk, rc := img3.rc) && SameButCounts(img2.disk, img3.disk)
    requires |img3.rc| == |img2.rc|
    requires var sn := img.snapshots[n]; forall k: nat :: k < |img2.rc| ==>
               img3.rc[k] == img2.rc[k] - Within(k, sn.l1Offset, L1Clusters(sn.l1Size))
    ensures var a, b := img.(snapshots := Without(img.snapshots, n)), img3.(snapshots := Without(img.snapshots, n));
            Inv(b, []) && SnapsKept(a, b) && SameGuest(a, b) && |img2.l1| == |img.l1|
  {
    hide Regions, Trees, Exact, Flags, References, SnapsKept, SameGuest, RootPaths, TablePaths, Flatten, L1Clusters,
         ReadL1, L1Region, Loose, Without;
    var sn := img.snapshots[n];
    var rest := Without(img.snapshots, n);
    var a, b1, b2, b3 := img.(snapshots := rest), img1.(snapshots := rest), img2.(snapshots := rest),
        img3.(snapshots := rest);
    var run := Run(sn.l1Offset, L1Clusters(sn.l1Size));
    RemoveStep(img, n);
    TreeGivenUp(a, b1, sn, SnapL1(img.disk, sn), SnapL1(img1.disk, sn));
    ActiveAgain(img1, img2, rest, 0);
    FlagsRefreshed(b1, b2, run);
    forall k: nat
      ensures TablePaths(run, k) == Within(k, sn.l1Offset, L1Clusters(sn.l1Size))
      ensures Within(k, sn.l1Offset, L1Clusters(sn.l1Size)) > 0 ==> RootPaths(b2.disk, b2.l1, k) == 0
    {
      RunPaths(sn.l1Offset, L1Clusters(sn.l1Size), k);
      if Within(k, sn.l1Offset, L1Clusters(sn.l1Size)) > 0 { LooseNotMet(a, k); }
    }
    CountsOnly(b2, b3);
    FreeStep(b2, b3, run);
    ActiveRootOk(b2);
    assert Avoids(b2.disk, b2.l1, {});
    GuestAvoids(b2, b3, {});
    KeptTrans(a, b1, b2);
    KeptTrans(a, b2, b3);
  }

  /** The first pass of a deletion. */
  ghost predicate DeleteFirst(img: Img, img1: Img, n: nat)
    requires n < |img.snapshots|
  {
    var sn := img.snapshots[n];
    && img1 == img.(disk := img1.disk, rc := img1.rc)
    && RootUpdated(img.disk, img.rc, SnapL1(img.disk, sn), sn.l1Offset, -1, img1.disk, img1.rc, SnapL1(img1.disk, sn))
  }

  lemma LooseNotMet(img: Img, k: nat)
    requires Loose(img, k)
    ensures RootPaths(img.disk, img.l1, k) == 0
  {
  }

  lemma ActiveAgain(img: Img, img': Img, sns: seq<Snapshot>, addend: int)
    requires ActiveUpdated(img, img', addend)
    ensures ActiveUpdated(img.(snapshots := sns), img'.(snapshots := sns), addend)
  {
  }

  lemma CountsOnly(img: Img, img': Img)
    requires img' == img.(disk := img'.disk, rc := img'.rc) && |img'.rc| == |img.rc|
    requires SameButCounts(img.disk, img'.disk)
    ensures Written(img, img', {})
  {
  }

  /** Between the two passes of a deletion the active tree and its table are in order. */
  lemma DeleteMiddle(img: Img, img1: Img, n: nat)
    requires Inv(img, []) && n < |img.snapshots| && DeleteFirst(img, img1, n)
    ensures GoodTree(img1.disk, img1.l1) && L1Region(img1.disk, img1.l1Offset, |img1.l1|)
    ensures ReadL1(img1.disk, img1.l1Offset, |img1.l1|) == img1.l1
  {
    hide Regions, Exact, Flags, References, SnapsKept, SameGuest, RootPaths, TablePaths, Flatten, L1Clusters, ReadL1,
         L1Region, Loose, Without, GoodTree;
    var sn := img.snapshots[n];
    RemoveStep(img, n);
    var a := img.(snapshots := Without(img.snapshots, n));
    TreeGivenUp(a, img1.(snapshots := Without(img.snapshots, n)), sn, SnapL1(img.disk, sn), SnapL1(img1.disk, sn));
    RegionParts(img1.(snapshots := Without(img.snapshots, n)));
  }

  /** The table clusters of snapshot n can be given up after the passes. */
  lemma TableCounted(img: Img, img1: Img, img2: Img, n: nat)
    requires Inv(img, []) && n < |img.snapshots| && DeleteFirst(img, img1, n) && ActiveUpdated(img1, img2, 0)
    ensures var sn := img.snapshots[n];
            && sn.l1Offset + L1Clusters(sn.l1Size) <= |img2.disk| == |img2.rc|
            && forall k: nat :: sn.l1Offset <= k < sn.l1Offset + L1Clusters(sn.l1Size) ==> img2.rc[k] >= 1
  {
    hide Regions, Trees, Flags, References, SnapsKept, SameGuest, RootPaths, TablePaths, Flatten, L1Clusters, ReadL1,
         Loose, Without;
    var sn := img.snapshots[n];
    var rest := Without(img.snapshots, n);
    RemoveStep(img, n);
    var a, b1, b2 := img.(snapshots := rest), img1.(snapshots := rest), img2.(snapshots := rest);
    TreeGivenUp(a, b1, sn, SnapL1(img.disk, sn), SnapL1(img1.disk, sn));
    ActiveAgain(img1, img2, rest, 0);
    FlagsRefreshed(b1, b2, Run(sn.l1Offset, L1Clusters(sn.l1Size)));
    RegionParts(b2);
    forall k: nat | sn.l1Offset <= k < sn.l1Offset + L1Clusters(sn.l1Size)
      ensures img2.rc[k] >= 1
    {
      RunPaths(sn.l1Offset, L1Clusters(sn.l1Size), k);
    }
  }
}