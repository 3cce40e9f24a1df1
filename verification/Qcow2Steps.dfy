/**
  The changes qcow2 makes to an image, one lemma each: why the invariant survives and
  what happens to the guest disks.
 */
module Qcow2Steps {
  import opened Arith
  import opened Qcow2Format
  import opened Qcow2Store
  import opened Qcow2Invariant

  // ----- what is met is a table or data

  lemma {:induction false} TableMet(t: seq<Entry>, k: nat) returns (j: nat)
    requires TablePaths(t, k) >= 1
    ensures j < |t| && t[j].host == k && k != 0
  {
    j := |t| - 1;
    if Refs(t[j], k) == 0 { j := TableMet(t[..j], k); }
  }

  lemma {:induction false} RootMet(d: Disk, l1: seq<Entry>, k: nat) returns (i: nat)
    requires RootPaths(d, l1, k) >= 1
    ensures i < |l1| && l1[i].host != 0 && EntryPaths(d, l1[i], k) >= 1
  {
    i := |l1| - 1;
    if EntryPaths(d, l1[i], k) == 0 { i := RootMet(d, l1[..i], k); }
  }

  /** A cluster met in a well-formed tree holds a table or data. */
  lemma MetKind(d: Disk, l1: seq<Entry>, k: nat)
    requires RootOk(d, l1) && RootPaths(d, l1, k) >= 1
    ensures 0 < k < |d| && (d[k].L2? || d[k].Data?)
  {
    var i := RootMet(d, l1, k);
    if l1[i].host != k {
      var j := TableMet(Table(d, l1[i].host), k);
    }
  }

  lemma {:induction false} SnapMet(d: Disk, sns: seq<Snapshot>, k: nat) returns (n: nat)
    requires SnapPaths(d, sns, k) >= 1
    ensures n < |sns| && RootPaths(d, SnapL1(d, sns[n]), k) >= 1
  {
    n := |sns| - 1;
    if RootPaths(d, SnapL1(d, sns[n]), k) == 0 { n := SnapMet(d, sns[..n], k); }
  }

  lemma {:induction false} SnapMetaMet(sns: seq<Snapshot>, k: nat) returns (n: nat)
    requires SnapMeta(sns, k) >= 1
    ensures n < |sns| && sns[n].l1Offset <= k < sns[n].l1Offset + L1Clusters(sns[n].l1Size)
  {
    n := |sns| - 1;
    if Within(k, sns[n].l1Offset, L1Clusters(sns[n].l1Size)) == 0 { n := SnapMetaMet(sns[..n], k); }
  }

  /** Metadata holds neither tables nor data. */
  lemma MetaKind(img: Img, k: nat)
    requires Regions(img) && Meta(img, k) >= 1
    ensures k < |img.disk| && !img.disk[k].L2? && !img.disk[k].Data?
  {
    if SnapMeta(img.snapshots, k) >= 1 {
      var n := SnapMetaMet(img.snapshots, k);
      assert SnapOk(img, img.snapshots[n]);
      assert img.disk[k].L1?;
    } else if img.l1Offset <= k < img.l1Offset + L1Clusters(|img.l1|) {
      assert img.disk[k].L1?;
    } else if FixedRefs(img, k) > 0 {
    } else {
      assert img.disk[k].Blob?;
    }
  }

  /** Metadata is met in no tree. */
  lemma MetaNotMet(img: Img, k: nat)
    requires Regions(img) && Trees(img) && Meta(img, k) >= 1
    ensures RootPaths(img.disk, img.l1, k) == 0 && SnapPaths(img.disk, img.snapshots, k) == 0
  {
    MetaKind(img, k);
    if RootPaths(img.disk, img.l1, k) >= 1 { MetKind(img.disk, img.l1, k); }
    if SnapPaths(img.disk, img.snapshots, k) >= 1 {
      var n := SnapMet(img.disk, img.snapshots, k);
      MetKind(img.disk, SnapL1(img.disk, img.snapshots[n]), k);
    }
  }

  // ----- writing clusters that only the active tree may refer to

  /** k can be rewritten: nothing refers to it, or it is data of the active tree and stays data. */
  ghost predicate Writable(img: Img, d': Disk, k: nat) {
    && k < |img.disk| == |d'|
    && Private(img, k)
    && (RootPaths(img.disk, img.l1, k) == 0
        || (img.disk[k].Data? && d'[k].Data? && |d'[k].sectors| == CLUSTER_SECTORS))
  }

  ghost predicate Written(img: Img, img': Img, w: set<nat>) {
    && img' == img.(disk := img'.disk, rc := img'.rc) && |img'.rc| == |img.rc|
    && SameOutside(img.disk, img'.disk, w)
    && (forall k :: k in w ==> Writable(img, img'.disk, k))
  }

  lemma ActiveTables(img: Img, img': Img, w: set<nat>)
    requires Trees(img) && Written(img, img', w)
    ensures forall i :: 0 <= i < |img.l1| && img.l1[i].host != 0
              ==> img.l1[i].host !in w && Table(img'.disk, img.l1[i].host) == Table(img.disk, img.l1[i].host)
  {
    forall i | 0 <= i < |img.l1| && img.l1[i].host != 0
      ensures img.l1[i].host !in w && Table(img'.disk, img.l1[i].host) == Table(img.disk, img.l1[i].host)
    {
      assert SubtreeOk(img.disk, img.l1[i]);
      RootPathsAt(img.disk, img.l1, i, img.l1[i].host);
    }
  }

  lemma ActiveStays(img: Img, img': Img, w: set<nat>)
    requires Trees(img) && Written(img, img', w)
    ensures GoodTree(img'.disk, img.l1)
    ensures forall k: nat :: RootPaths(img'.disk, img.l1, k) == RootPaths(img.disk, img.l1, k)
  {
    ActiveTables(img, img', w);
    forall k: nat
      ensures RootPaths(img'.disk, img.l1, k) == RootPaths(img.disk, img.l1, k)
    {
      RootPathsAlike(img.disk, img.l1, img'.disk, img.l1, k);
    }
    forall i | 0 <= i < |img.l1| && img.l1[i].host != 0
      ensures SubtreeOk(img'.disk, img.l1[i])
    {
      assert SubtreeOk(img.disk, img.l1[i]);
      forall j | 0 <= j < L2_SIZE
        ensures EntryOk(img'.disk, Table(img.disk, img.l1[i].host)[j])
      {
        EntryStays(img, img', w, i, j);
      }
    }
  }

  lemma EntryStays(img: Img, img': Img, w: set<nat>, i: nat, j: nat)
    requires Written(img, img', w) && i < |img.l1| && img.l1[i].host != 0
    requires j < |Table(img.disk, img.l1[i].host)| && EntryOk(img.disk, Table(img.disk, img.l1[i].host)[j])
    ensures EntryOk(img'.disk, Table(img.disk, img.l1[i].host)[j])
  {
    var h := Table(img.disk, img.l1[i].host)[j].host;
    if h != 0 && h in w {
      TablePathsAt(Table(img.disk, img.l1[i].host), j, h);
      RootPathsAt(img.disk, img.l1, i, h);
    }
  }

  /** Metadata stays in order when what is written is no metadata. */
  lemma RegionsStay(img: Img, img': Img, w: set<nat>)
    requires Regions(img) && img' == img.(disk := img'.disk, rc := img'.rc) && |img'.rc| == |img.rc|
    requires SameOutside(img.disk, img'.disk, w) && forall k :: k in w ==> Meta(img, k) == 0
    requires forall n :: 0 <= n < |img.snapshots| ==>
               L1Region(img'.disk, img.snapshots[n].l1Offset, img.snapshots[n].l1Size)
    ensures Regions(img')
  {
    forall k: nat
      ensures Meta(img', k) == Meta(img, k) && FixedRefs(img', k) == FixedRefs(img, k)
      ensures Meta(img, k) > 0 ==> k !in w
    {
    }
    ActiveL1Stays(img, img'.disk, w);
    forall n | 0 <= n < |img.snapshots|
      ensures SnapOk(img', img'.snapshots[n])
    {
      assert SnapOk(img, img.snapshots[n]);
    }
  }

  lemma ActiveL1Stays(img: Img, d': Disk, w: set<nat>)
    requires L1Region(img.disk, img.l1Offset, |img.l1|)
    requires SameOutside(img.disk, d', w) && forall k :: k in w ==> Meta(img, k) == 0
    ensures L1Region(d', img.l1Offset, |img.l1|)
    ensures ReadL1(d', img.l1Offset, |img.l1|) == ReadL1(img.disk, img.l1Offset, |img.l1|)
  {
    forall c | img.l1Offset <= c < img.l1Offset + L1Clusters(|img.l1|)
      ensures d'[c] == img.disk[c] && img.disk[c].L1?
    {
      assert img.disk[c].L1? && Meta(img, c) > 0;
    }
    ReadL1Stays(img.disk, d', img.l1Offset, |img.l1|);
  }

  /** Such a write keeps the metadata, all trees, all references and every snapshot. */
  lemma StructureStays(img: Img, img': Img, w: set<nat>)
    requires Regions(img) && Trees(img) && Written(img, img', w)
    ensures Regions(img') && Trees(img') && SnapsKept(img, img')
    ensures forall k: nat :: References(img', k) == References(img, k)
    ensures forall i :: 0 <= i < |img.l1| && img.l1[i].host != 0
              ==> Table(img'.disk, img.l1[i].host) == Table(img.disk, img.l1[i].host)
  {
    SameIsAlike(img.disk, img'.disk, w);
    SnapshotFrame(img, img', w);
    ActiveStays(img, img', w);
    ActiveTables(img, img', w);
    RegionsStay(img, img', w);
  }

  /** Flags stay right while the counts of the active tree stand still. */
  lemma FlagsStay(img: Img, img': Img)
    requires Trees(img) && Flags(img) && img'.l1 == img.l1 && |img'.rc| == |img.rc|
    requires forall k: nat :: k < |img.rc| && RootPaths(img.disk, img.l1, k) >= 1 ==> img'.rc[k] == img.rc[k]
    requires forall i :: 0 <= i < |img.l1| && img.l1[i].host != 0
              ==> Table(img'.disk, img.l1[i].host) == Table(img.disk, img.l1[i].host)
    ensures Flags(img')
  {
    forall i | 0 <= i < |img.l1| && img.l1[i].host != 0
      ensures img'.rc[img.l1[i].host] == img.rc[img.l1[i].host]
      ensures FlagsRight(img'.rc, Table(img.disk, img.l1[i].host))
    {
      RootPathsAt(img.disk, img.l1, i, img.l1[i].host);
      var t := Table(img.disk, img.l1[i].host);
      forall j | 0 <= j < |t| && t[j].host != 0
        ensures img'.rc[t[j].host] == img.rc[t[j].host]
      {
        TablePathsAt(t, j, t[j].host);
        RootPathsAt(img.disk, img.l1, i, t[j].host);
      }
    }
  }

  /** Writing data where only the active tree may look keeps the invariant and every snapshot. */
  lemma DataStep(img: Img, img': Img, w: set<nat>, pend: seq<Entry>)
    requires Inv(img, pend) && Written(img, img', w) && img'.rc == img.rc
    ensures Inv(img', pend) && SnapsKept(img, img')
    ensures forall k: nat :: References(img', k) == References(img, k)
  {
    StructureStays(img, img', w);
    FlagsStay(img, img');
  }

  // ----- taking and giving up clusters

  /** The entries that name the n clusters from first on. */
  function Run(first: nat, n: nat): (r: seq<Entry>)
    ensures |r| == n && forall q :: 0 <= q < n ==> r[q] == Entry(first + q, true)
  {
    seq(n, q requires q >= 0 => Entry(first + q, true))
  }

  lemma {:induction false} RunPaths(first: nat, n: nat, k: nat)
    requires first > 0
    ensures TablePaths(Run(first, n), k) == Within(k, first, n)
  {
    if n > 0 {
      RunPaths(first, n - 1, k);
      assert Run(first, n)[..n - 1] == Run(first, n - 1);
    }
  }

  /** Clusters counted 0 are referred to by nothing; counting them once makes them pending. */
  lemma AllocStep(img: Img, img': Img, pend: seq<Entry>, first: nat, n: nat)
    requires Inv(img, pend) && Written(img, img', {})
    requires n > 0 && first + n <= |img.rc|
    requires forall k :: first <= k < first + n ==> img.rc[k] == 0
    requires forall k: nat :: k < |img.rc| ==> img'.rc[k] == img.rc[k] + Within(k, first, n)
    ensures first > 0 && Inv(img', pend + Run(first, n)) && SnapsKept(img, img')
    ensures forall k: nat :: References(img', k) == References(img, k)
    ensures forall k :: first <= k < first + n ==> References(img, k) == 0
  {
    StructureStays(img, img', {});
    assert img.rc[0] == References(img, 0) + TablePaths(pend, 0) >= 1;
    forall k: nat | k < |img.rc|
      ensures TablePaths(pend + Run(first, n), k) == TablePaths(pend, k) + Within(k, first, n)
      ensures first <= k < first + n ==> References(img, k) == 0
    {
      TablePathsConcat(pend, Run(first, n), k);
      RunPaths(first, n, k);
      assert img.rc[k] == References(img, k) + TablePaths(pend, k);
    }
    FlagsStay(img, img');
  }

  /** Giving up pending references to clusters outside the active tree. */
  lemma FreeStep(img: Img, img': Img, pend: seq<Entry>)
    requires Inv(img, pend) && Written(img, img', {})
    requires forall k: nat :: k < |img.rc| ==> img'.rc[k] == img.rc[k] - TablePaths(pend, k)
    requires forall k: nat :: k < |img.rc| && TablePaths(pend, k) > 0 ==> RootPaths(img.disk, img.l1, k) == 0
    ensures Inv(img', []) && SnapsKept(img, img')
  {
    StructureStays(img, img', {});
    FlagsStay(img, img');
  }

  /** A cluster of the active tree that is counted once is referred to by nothing else. */
  lemma OnlyActive(img: Img, pend: seq<Entry>, k: nat)
    requires Inv(img, pend) && k < |img.rc| && img.rc[k] == 1 && RootPaths(img.disk, img.l1, k) >= 1
    ensures Private(img, k) && TablePaths(pend, k) == 0
  {
    assert img.rc[k] == References(img, k) + TablePaths(pend, k);
    var i := RootMet(img.disk, img.l1, k);
    if img.l1[i].host != k { var j := TableMet(Table(img.disk, img.l1[i].host), k); }
  }

  /** A level-2 table is met at one place only. */
  lemma TableOnce(d: Disk, l1: seq<Entry>, i: nat)
    requires Tree(d, l1) && i < |l1| && l1[i].host != 0
    ensures forall i' :: 0 <= i' < |l1| && i' != i ==> l1[i'].host != l1[i].host
  {
    forall i' | 0 <= i' < |l1| && i' != i
      ensures l1[i'].host != l1[i].host
    {
      if i' < i { RootPathsTwo(d, l1, i', i, l1[i].host); } else { RootPathsTwo(d, l1, i, i', l1[i].host); }
    }
  }

  // ----- entering new clusters in a level-2 table

  /** Table t with its entries from j on replaced by those that name the run. */
  function Linked(t: seq<Entry>, j: nat, first: nat, n: nat): (t': seq<Entry>)
    requires j + n <= |t|
    ensures |t'| == |t|
    ensures forall x :: 0 <= x < |t| ==> t'[x] == if j <= x < j + n then Entry(first + (x - j), true) else t[x]
  {
    t[..j] + Run(first, n) + t[j + n..]
  }

  lemma LinkedPaths(t: seq<Entry>, j: nat, first: nat, n: nat, k: nat)
    requires j + n <= |t|
    ensures TablePaths(Linked(t, j, first, n), k) + TablePaths(t[j..j + n], k)
         == TablePaths(t, k) + TablePaths(Run(first, n), k)
  {
    TablePathsConcat3(t[..j], Run(first, n), t[j + n..], k);
    assert t == t[..j] + t[j..j + n] + t[j + n..];
    TablePathsConcat3(t[..j], t[j..j + n], t[j + n..], k);
  }

  lemma TablePathsConcat3(a: seq<Entry>, b: seq<Entry>, c: seq<Entry>, k: nat)
    ensures TablePaths(a + b + c, k) == TablePaths(a, k) + TablePaths(b, k) + TablePaths(c, k)
  {
    TablePathsConcat(a + b, c, k);
    TablePathsConcat(a, b, k);
  }

  /** Rewriting the one level-2 table at l1[i] moves the count of the tree by that of the table. */
  lemma TableChangePaths(d: Disk, l1: seq<Entry>, i: nat, t': seq<Entry>, k: nat)
    requires Tree(d, l1) && i < |l1| && 0 < l1[i].host < |d| && d[l1[i].host].L2?
    ensures RootPaths(d[l1[i].host := L2(t')], l1, k) + TablePaths(Table(d, l1[i].host), k)
         == RootPaths(d, l1, k) + TablePaths(t', k)
  {
    var d' := d[l1[i].host := L2(t')];
    TableOnce(d, l1, i);
    RootPathsSplit(d, l1, i, k);
    RootPathsSplit(d', l1, i, k);
    RootPathsAlike(d, l1[..i], d', l1[..i], k);
    RootPathsAlike(d, l1[i + 1..], d', l1[i + 1..], k);
  }

  /** The state in which a run of written clusters is about to be entered at (i, j). */
  ghost predicate ReadyToLink(img: Img, i: nat, j: nat, first: nat, n: nat) {
    && Inv(img, Run(first, n))
    && first > 0 && first + n <= |img.disk|
    && (forall k :: first <= k < first + n ==> References(img, k) == 0)
    && i < |img.l1| && img.l1[i].host != 0 && img.l1[i].copied && j + n <= L2_SIZE
  }

  ghost predicate RunFilled(d: Disk, first: nat, n: nat)
    requires first + n <= |d|
  {
    forall k :: first <= k < first + n ==> d[k].Data? && |d[k].sectors| == CLUSTER_SECTORS
  }

  ghost function LinkedImg(img: Img, i: nat, j: nat, first: nat, n: nat): Img
    requires ReadyToLink(img, i, j, first, n)
  {
    assert SubtreeOk(img.disk, img.l1[i]);
    var h := img.l1[i].host;
    img.(disk := img.disk[h := L2(Linked(Table(img.disk, h), j, first, n))])
  }

  lemma LinkPaths(img: Img, i: nat, j: nat, first: nat, n: nat)
    requires ReadyToLink(img, i, j, first, n)
    ensures var olds := Table(img.disk, img.l1[i].host)[j..j + n];
            && (forall k: nat :: RootPaths(LinkedImg(img, i, j, first, n).disk, img.l1, k) + TablePaths(olds, k)
                                  == RootPaths(img.disk, img.l1, k) + Within(k, first, n))
            && (forall k: nat :: first <= k < first + n ==> RootPaths(img.disk, img.l1, k) == 0)
  {
    assert SubtreeOk(img.disk, img.l1[i]);
    var t := Table(img.disk, img.l1[i].host);
    forall k: nat
      ensures RootPaths(LinkedImg(img, i, j, first, n).disk, img.l1, k) + TablePaths(t[j..j + n], k)
           == RootPaths(img.disk, img.l1, k) + Within(k, first, n)
    {
      TableChangePaths(img.disk, img.l1, i, Linked(t, j, first, n), k);
      LinkedPaths(t, j, first, n, k);
      RunPaths(first, n, k);
    }
    forall k: nat | first <= k < first + n
      ensures RootPaths(img.disk, img.l1, k) == 0
    {
      assert References(img, k) == 0;
    }
  }

  lemma OneTableOk(d: Disk, d': Disk, c: nat, t: seq<Entry>)
    requires c < |d| && d[c].L2? && |d'| == |d| && d' == d[c := d'[c]] && TableOk(d, t)
    ensures TableOk(d', t)
  {
    forall j | 0 <= j < |t|
      ensures EntryOk(d', t[j])
    {
      assert EntryOk(d, t[j]);
    }
  }

  lemma LinkedTableOk(d: Disk, d': Disk, c: nat, j: nat, first: nat, n: nat)
    requires c < |d| && d[c].L2? && TableOk(d, d[c].entries) && j + n <= L2_SIZE && 0 < first && first + n <= |d|
    requires RunFilled(d, first, n)
    requires d' == d[c := L2(Linked(d[c].entries, j, first, n))]
    ensures TableOk(d', d'[c].entries)
  {
    forall x | 0 <= x < L2_SIZE
      ensures EntryOk(d', d'[c].entries[x])
    {
      assert EntryOk(d, d[c].entries[x]);
      if j <= x < j + n { assert d[first + (x - j)].Data?; }
    }
  }

  lemma LinkTree(img: Img, i: nat, j: nat, first: nat, n: nat)
    requires ReadyToLink(img, i, j, first, n) && RunFilled(img.disk, first, n)
    ensures GoodTree(LinkedImg(img, i, j, first, n).disk, img.l1)
  {
    hide Regions, Exact, Flags, References, RootPaths, TableOk;
    LinkPaths(img, i, j, first, n);
    TableOnce(img.disk, img.l1, i);
    var h := img.l1[i].host;
    EntryForm(img, i);
    var d' := LinkedImg(img, i, j, first, n).disk;
    LinkedTableOk(img.disk, d', h, j, first, n);
    forall i' | 0 <= i' < |img.l1| && img.l1[i'].host != 0 && i' != i
      ensures SubtreeOk(d', img.l1[i'])
    {
      EntryForm(img, i');
      OneTableOk(img.disk, d', h, img.disk[img.l1[i'].host].entries);
    }
  }

  /** What writing level-2 table h alone keeps: metadata and snapshots, when only the active tree has h. */
  lemma TableWriteFrame(img: Img, img': Img, h: nat)
    requires Regions(img) && Trees(img) && Private(img, h) && h < |img.disk|
    requires img' == img.(disk := img'.disk) && SameOutside(img.disk, img'.disk, {h})
    ensures Regions(img') && SnapsKept(img, img')
    ensures forall k: nat ::
              Meta(img', k) == Meta(img, k) &&
                  SnapPaths(img'.disk, img.snapshots, k) == SnapPaths(img.disk, img.snapshots, k)
    ensures forall n :: 0 <= n < |img.snapshots| ==> GoodTree(img'.disk, SnapL1(img'.disk, img.snapshots[n]))
  {
    SameIsAlike(img.disk, img'.disk, {h});
    SnapshotFrame(img, img', {h});
    RegionsStay(img, img', {h});
  }

  lemma LinkFlags(img: Img, i: nat, j: nat, first: nat, n: nat)
    requires ReadyToLink(img, i, j, first, n)
    ensures Flags(LinkedImg(img, i, j, first, n))
  {
    TableOnce(img.disk, img.l1, i);
    assert SubtreeOk(img.disk, img.l1[i]);
    var img' := LinkedImg(img, i, j, first, n);
    var t' := Table(img'.disk, img.l1[i].host);
    forall k: nat | first <= k < first + n
      ensures img.rc[k] == 1
    {
      RunPaths(first, n, k);
    }
    assert FlagsRight(img.rc, t') by {
      assert FlagsRight(img.rc, Table(img.disk, img.l1[i].host));
    }
  }

  /** Entering a written run in the active tree: the replaced entries become the pending ones. */
  lemma LinkStep(img: Img, i: nat, j: nat, first: nat, n: nat)
    requires ReadyToLink(img, i, j, first, n) && RunFilled(img.disk, first, n)
    ensures |Table(img.disk, img.l1[i].host)| == L2_SIZE
    ensures var img', olds := LinkedImg(img, i, j, first, n), Table(img.disk, img.l1[i].host)[j..j + n];
            && Inv(img', olds) && SnapsKept(img, img')
            && (forall k: nat :: TablePaths(olds, k) > 0 ==> RootPaths(img'.disk, img.l1, k) == 0)
  {
    var h := img.l1[i].host;
    assert SubtreeOk(img.disk, img.l1[i]);
    RootPathsAt(img.disk, img.l1, i, h);
    OnlyActive(img, Run(first, n), h);
    var img' := LinkedImg(img, i, j, first, n);
    TableWriteFrame(img, img', h);
    LinkTree(img, i, j, first, n);
    LinkFlags(img, i, j, first, n);
    LinkPaths(img, i, j, first, n);
    forall k: nat | k < |img.rc|
      ensures img'.rc[k] == References(img', k) + TablePaths(Table(img.disk, h)[j..j + n], k)
    {
      RunPaths(first, n, k);
    }
  }

  // ----- giving a level-1 entry a table of its own

  /** The disk with entry i of the level-1 table at offset set to e. */
  function SetL1(d: Disk, offset: nat, i: nat, e: Entry): Disk
    requires var c := offset + Div(i, L2_SIZE); c < |d| && d[c].L1? && |d[c].entries| == L2_SIZE
  {
    var c := offset + Div(i, L2_SIZE);
    d[c := L1(d[c].entries[Mod(i, L2_SIZE) := e])]
  }

  lemma SetL1Reads(d: Disk, offset: nat, n: nat, i: nat, e: Entry)
    requires L1Region(d, offset, n) && i < n
    ensures Div(i, L2_SIZE) < L1Clusters(n) && d[offset + Div(i, L2_SIZE)].L1?
    ensures L1Region(SetL1(d, offset, i, e), offset, n)
    ensures ReadL1(SetL1(d, offset, i, e), offset, n) == ReadL1(d, offset, n)[i := e]
  {
    CeilDivAbove(n, i, L2_SIZE);
    var d' := SetL1(d, offset, i, e);
    forall x | 0 <= x < n
      ensures L1At(d', offset, x) == ReadL1(d, offset, n)[i := e][x]
    {
      if Div(x, L2_SIZE) == Div(i, L2_SIZE) && Mod(x, L2_SIZE) == Mod(i, L2_SIZE) {
        DivModUnique(x, i, L2_SIZE);
      }
    }
  }

  /** Entry i of the active tree is about to get the table in cluster h, a copy of the one it shares. */
  ghost predicate ReadyToSwap(img: Img, i: nat, h: nat) {
    && Inv(img, Run(h, 1))
    && 0 < h < |img.disk| && References(img, h) == 0
    && i < |img.l1| && !img.l1[i].copied
    && img.disk[h] == L2(OldTable(img, i))
  }

  /** The table of level-1 entry i, all unused when there is none. */
  function OldTable(img: Img, i: nat): seq<Entry>
    requires i < |img.l1|
  {
    if img.l1[i].host == 0 then seq(L2_SIZE, _ => Unused) else Table(img.disk, img.l1[i].host)
  }

  lemma {:induction false} UnusedPaths(t: seq<Entry>, k: nat)
    requires forall j :: 0 <= j < |t| ==> t[j] == Unused
    ensures TablePaths(t, k) == 0
  {
    if t != [] { UnusedPaths(t[..|t| - 1], k); }
  }

  ghost function SwappedImg(img: Img, i: nat, h: nat): Img
    requires ReadyToSwap(img, i, h)
  {
    SetL1Reads(img.disk, img.l1Offset, |img.l1|, i, Entry(h, true));
    img.(l1 := img.l1[i := Entry(h, true)], disk := SetL1(img.disk, img.l1Offset, i, Entry(h, true)))
  }

  /** The cluster of the level-1 table that entry i is in. */
  lemma ActiveL1Cluster(img: Img, i: nat)
    requires Regions(img) && Trees(img) && i < |img.l1|
    ensures var c := img.l1Offset + Div(i, L2_SIZE);
            && c < |img.disk| && img.disk[c].L1? && |img.disk[c].entries| == L2_SIZE && SnapFree(img, c) &&
                Meta(img, c) == 1
            && FixedRefs(img, c) == 0 && Within(c, img.snapOffset, img.snapClusters) == 0
  {
    SetL1Reads(img.disk, img.l1Offset, |img.l1|, i, Unused);
    var c := img.l1Offset + Div(i, L2_SIZE);
    assert Within(c, img.l1Offset, L1Clusters(|img.l1|)) == 1;
    assert Meta(img, c) <= 1;
    MetaNotMet(img, c);
  }

  lemma SwapPaths(img: Img, i: nat, h: nat)
    requires ReadyToSwap(img, i, h)
    ensures forall k: nat :: RootPaths(SwappedImg(img, i, h).disk, SwappedImg(img, i, h).l1, k) + Refs(img.l1[i], k)
                          == RootPaths(img.disk, img.l1, k) + Refs(Entry(h, true), k)
  {
    hide References, RootPaths, TablePaths, Div, Mod, Exact, Flags;
    var img' := SwappedImg(img, i, h);
    ActiveL1Cluster(img, i);
    SwapTables(img, i, h);
    forall k: nat
      ensures RootPaths(img'.disk, img'.l1, k) + Refs(img.l1[i], k)
                == RootPaths(img.disk, img.l1, k) + Refs(Entry(h, true), k)
    {
      RootPathsSet(img.disk, img.l1, i, Entry(h, true), k);
      RootPathsAlike(img.disk, img'.l1, img'.disk, img'.l1, k);
      if img.l1[i].host == 0 { UnusedPaths(OldTable(img, i), k); }
    }
  }

  /** No level-2 table changes in the swap. */
  lemma SwapTables(img: Img, i: nat, h: nat)
    requires ReadyToSwap(img, i, h)
    ensures forall x: nat :: Table(SwappedImg(img, i, h).disk, x) == Table(img.disk, x)
  {
    ActiveL1Cluster(img, i);
  }

  /** A table stays well formed when a cluster that holds a level-1 table is rewritten as such. */
  lemma OtherTableOk(d: Disk, d': Disk, c: nat, t: seq<Entry>)
    requires c < |d| && d[c].L1? && |d'| == |d| && d' == d[c := d'[c]] && TableOk(d, t)
    ensures TableOk(d', t)
  {
    forall j | 0 <= j < |t|
      ensures EntryOk(d', t[j])
    {
      assert EntryOk(d, t[j]);
    }
  }

  lemma SwapSubtrees(img: Img, i: nat, h: nat)
    requires ReadyToSwap(img, i, h)
    ensures RootOk(SwappedImg(img, i, h).disk, SwappedImg(img, i, h).l1)
  {
    hide Regions, Exact, Flags, References, Div, Mod, Tree, SnapFree, RootPaths;
    var img' := SwappedImg(img, i, h);
    var c := img.l1Offset + Div(i, L2_SIZE);
    ActiveL1Cluster(img, i);
    assert SubtreeOk(img.disk, img.l1[i]);
    forall i' | 0 <= i' < |img'.l1|
      ensures SubtreeOk(img'.disk, img'.l1[i'])
    {
      assert SubtreeOk(img.disk, img.l1[i']);
      var t := if i' == i then OldTable(img, i) else Table(img.disk, img.l1[i'].host);
      if img'.l1[i'].host != 0 { OtherTableOk(img.disk, img'.disk, c, t); }
    }
  }

  lemma SwapFlags(img: Img, i: nat, h: nat)
    requires ReadyToSwap(img, i, h)
    ensures Flags(SwappedImg(img, i, h))
  {
    var img' := SwappedImg(img, i, h);
    SwapTables(img, i, h);
    RunPaths(h, 1, h);
    assert img.rc[h] == 1;
    forall i' | 0 <= i' < |img'.l1| && img'.l1[i'].host != 0
      ensures FlagsRight(img.rc, Table(img'.disk, img'.l1[i'].host))
    {
      if i' == i {
        assert img.l1[i].host != 0 ==> FlagsRight(img.rc, Table(img.disk, img.l1[i].host));
      }
    }
  }

  lemma TreesParts(img: Img)
    requires Trees(img)
    ensures forall n :: 0 <= n < |img.snapshots| ==> GoodTree(img.disk, SnapL1(img.disk, img.snapshots[n]))
  {
  }

  lemma SwapRegions(img: Img, i: nat, h: nat)
    requires ReadyToSwap(img, i, h)
    ensures Regions(SwappedImg(img, i, h)) && SnapsKept(img, SwappedImg(img, i, h))
    ensures var img' := SwappedImg(img, i, h);
            && (forall k: nat ::
                  Meta(img', k) == Meta(img, k) &&
                  SnapPaths(img'.disk, img.snapshots, k) == SnapPaths(img.disk, img.snapshots, k))
            && (forall n :: 0 <= n < |img.snapshots| ==> GoodTree(img'.disk, SnapL1(img'.disk, img.snapshots[n])))
  {
    hide Trees, Exact, Flags, References, Mod, Div, RootPaths, SnapPaths, SnapMeta, GoodTree, ReadL1,
         L1Clusters, GuestAt;
    var img' := SwappedImg(img, i, h);
    var c := img.l1Offset + Div(i, L2_SIZE);
    ActiveL1Cluster(img, i);
    TreesParts(img);
    SameIsAlike(img.disk, img'.disk, {c});
    SnapshotFrame(img, img', {c});
    SetL1Reads(img.disk, img.l1Offset, |img.l1|, i, Entry(h, true));
    forall k: nat
      ensures Meta(img', k) == Meta(img, k) && FixedRefs(img', k) == FixedRefs(img, k)
    {
    }
    forall n | 0 <= n < |img.snapshots|
      ensures SnapOk(img', img'.snapshots[n])
    {
      assert SnapOk(img, img.snapshots[n]);
    }
  }

  /** Swapping in the private table: the old one becomes the pending reference, the guest disk is the same. */
  lemma SwapStep(img: Img, i: nat, h: nat)
    requires ReadyToSwap(img, i, h)
    ensures var img' := SwappedImg(img, i, h);
            && Inv(img', [img.l1[i]]) && SnapsKept(img, img')
            && (forall k: nat :: TablePaths([img.l1[i]], k) > 0 ==> RootPaths(img'.disk, img'.l1, k) == 0)
  {
    var img' := SwappedImg(img, i, h);
    SwapPaths(img, i, h);
    SwapSubtrees(img, i, h);
    SwapFlags(img, i, h);
    SwapRegions(img, i, h);
    assert References(img, h) == 0;
    forall k: nat
      ensures TablePaths([img.l1[i]], k) == Refs(img.l1[i], k) && TablePaths(Run(h, 1), k) == Refs(Entry(h, true), k)
      ensures RootPaths(img'.disk, img'.l1, k) <= 1
      ensures Refs(img.l1[i], k) > 0 ==> RootPaths(img'.disk, img'.l1, k) == 0
    {
      TablePathsOne(img.l1[i], k);
      RunPaths(h, 1, k);
      if Refs(img.l1[i], k) > 0 { RootPathsAt(img.disk, img.l1, i, k); }
    }
  }

  lemma SwapGuest(img: Img, i: nat, h: nat, backing: seq<Sector>, s: nat)
    requires ReadyToSwap(img, i, h)
    ensures Guest(SwappedImg(img, i, h), backing, s) == Guest(img, backing, s)
  {
    hide Regions, Exact, Flags, References, Div, Mod, Tree, RootPaths, TableOk;
    SwapTables(img, i, h);
    ActiveL1Cluster(img, i);
    var g := Div(s, CLUSTER_SECTORS);
    if Div(g, L2_SIZE) < |img.l1| { EntryForm(img, Div(g, L2_SIZE)); }
    SwapHost(img, i, h, g);
    SwapSector(img, i, h, HostOf(img.disk, img.l1, g), Mod(s, CLUSTER_SECTORS));
  }

  lemma SwapSector(img: Img, i: nat, h: nat, k: nat, o: nat)
    requires ReadyToSwap(img, i, h)
    ensures SectorOf(SwappedImg(img, i, h).disk, k, o) == SectorOf(img.disk, k, o)
  {
    hide Regions, Exact, Flags, References, Div, Mod, Trees;
    ActiveL1Cluster(img, i);
  }

  lemma SwapHost(img: Img, i: nat, h: nat, g: nat)
    requires ReadyToSwap(img, i, h)
    ensures HostOf(SwappedImg(img, i, h).disk, SwappedImg(img, i, h).l1, g) == HostOf(img.disk, img.l1, g)
  {
    hide Regions, Exact, Flags, References, Div, Mod, Tree, TableOk, SetL1;
    SwapTables(img, i, h);
    if Div(g, L2_SIZE) < |img.l1| { EntryForm(img, Div(g, L2_SIZE)); }
  }

  lemma SnapsKeptTwice(a: Img, b: Img, c: Img)
    requires SnapsKept(a, b) && SnapsKept(b, c)
    ensures SnapsKept(a, c)
  {
  }

  /** The same guest disk in both images. */
  ghost predicate SameGuest(img: Img, img': Img) {
    forall backing, s: nat :: Guest(img', backing, s) == Guest(img, backing, s)
  }

  /** Changes outside what the active tree meets leave the guest disk alone. */
  lemma GuestAvoids(img: Img, img': Img, w: set<nat>)
    requires RootOk(img.disk, img.l1) && img'.l1 == img.l1
    requires SameOutside(img.disk, img'.disk, w) && Avoids(img.disk, img.l1, w)
    ensures SameGuest(img, img')
  {
    SameIsAlike(img.disk, img'.disk, w);
    forall backing, s: nat
      ensures Guest(img', backing, s) == Guest(img, backing, s)
    {
      GuestStays(img.disk, img.l1, img'.disk, img.l1, w, backing, s);
    }
  }

  /** Image img1 is img0 after the reference to the table at l1[i] was given up and cluster h was taken. */
  ghost predicate TableTaken(img0: Img, img1: Img, i: nat, h: nat) {
    && Inv(img0, []) && Written(img0, img1, {})
    && i < |img0.l1| && !img0.l1[i].copied && h < |img0.rc| == |img0.disk|
    && (forall k: nat :: k < |img0.rc| ==> img1.rc[k] == img0.rc[k] - Refs(img0.l1[i], k) + Within(k, h, 1))
    && img1.rc[h] == 1
  }

  /** A cluster counted 0 is taken; the shared table, counted at least twice, is not that cluster. */
  lemma TakenFree(img0: Img, img1: Img, i: nat, h: nat)
    requires TableTaken(img0, img1, i, h)
    ensures img0.rc[h] == 0 && h > 0 && References(img0, h) == 0
    ensures img0.l1[i].host != 0 ==> References(img0, img0.l1[i].host) >= 2
  {
    assert SubtreeOk(img0.disk, img0.l1[i]);
    assert img0.rc[0] == References(img0, 0) + TablePaths([], 0);
    assert img0.rc[h] == References(img0, h) + TablePaths([], h);
    var o := img0.l1[i].host;
    if o != 0 {
      RootPathsAt(img0.disk, img0.l1, i, o);
      assert img0.rc[o] == References(img0, o) + TablePaths([], o);
      assert img0.rc[o] != 1;
    }
  }

  /** The taken cluster, filled with the table that l1[i] shares; the counts as if nothing were given up yet. */
  ghost function Copied(img0: Img, img1: Img, i: nat, h: nat): Img
    requires i < |img0.l1| && h < |img1.disk| && h < |img0.rc| == |img1.rc|
  {
    img0.(rc := seq(|img0.rc|, k requires 0 <= k < |img0.rc| => img0.rc[k] + Within(k, h, 1)),
          disk := img1.disk[h := L2(OldTable(img0, i))])
  }

  lemma CopyStep(img0: Img, img1: Img, i: nat, h: nat)
    requires TableTaken(img0, img1, i, h)
    ensures ReadyToSwap(Copied(img0, img1, i, h), i, h)
    ensures SnapsKept(img0, Copied(img0, img1, i, h)) && SameGuest(img0, Copied(img0, img1, i, h))
    ensures forall k: nat :: References(Copied(img0, img1, i, h), k) == References(img0, k)
  {
    hide Regions, Trees, Flags, Exact, SnapsKept, SameGuest, SnapPaths, Meta, RootPaths;
    TakenFree(img0, img1, i, h);
    var b := Copied(img0, img1, i, h);
    var a := b.(disk := img1.disk);
    AllocStep(img0, a, [], h, 1);
    assert [] + Run(h, 1) == Run(h, 1);
    assert References(a, h) == 0;
    Unreferenced(a, h);
    DataStep(a, b, {h}, Run(h, 1));
    SnapsKeptTwice(img0, a, b);
    CopyKeepsTable(img0, b, i, h);
  }

  lemma Unreferenced(img: Img, k: nat)
    requires References(img, k) == 0 && k != 0
    ensures Private(img, k) && RootPaths(img.disk, img.l1, k) == 0
  {
  }

  lemma CopyKeepsTable(img: Img, img': Img, i: nat, h: nat)
    requires Trees(img) && img'.l1 == img.l1 && i < |img.l1| && h > 0 && References(img, h) == 0
    requires SameOutside(img.disk, img'.disk, {h})
    ensures SameGuest(img, img') && OldTable(img', i) == OldTable(img, i)
  {
    GuestAvoids(img, img', {h});
    assert SubtreeOk(img.disk, img.l1[i]);
    if img.l1[i].host != 0 { RootPathsAt(img.disk, img.l1, i, img.l1[i].host); }
  }

  lemma EntryForm(img: Img, i: nat)
    requires Trees(img) && i < |img.l1|
    ensures img.l1[i].host == 0 <==> img.l1[i] == Unused
    ensures img.l1[i].host != 0 ==> img.l1[i].host < |img.disk| && img.disk[img.l1[i].host].L2?
    ensures img.l1[i].host != 0 ==> TableOk(img.disk, img.disk[img.l1[i].host].entries)
  {
    assert SubtreeOk(img.disk, img.l1[i]);
  }

  lemma ThenCounts(img0: Img, a: Img, b: Img)
    requires Written(img0, a, {}) && b == a.(disk := b.disk, rc := b.rc) && |b.rc| == |a.rc|
    requires SameButCounts(a.disk, b.disk)
    ensures Written(img0, b, {})
  {
  }

  /** Giving the active tree its own copy of a level-2 table it shares (or a first one). */
  lemma CowStep(img0: Img, img1: Img, img2: Img, i: nat, h: nat)
    requires TableTaken(img0, img1, i, h)
    requires ReadyToSwap(Copied(img0, img1, i, h), i, h)
    requires img2 == SwappedImg(Copied(img0, img1, i, h), i, h).(rc := img1.rc)
    ensures Inv(img2, []) && SnapsKept(img0, img2) && SameGuest(img0, img2)
    ensures forall k: nat :: References(img2, k) + Refs(img0.l1[i], k) == References(img0, k) + Refs(Entry(h, true), k)
  {
    CopyStep(img0, img1, i, h);
    var b := Copied(img0, img1, i, h);
    var c := SwappedImg(b, i, h);
    SwapStep(b, i, h);
    SwapPaths(b, i, h);
    SwapRegions(b, i, h);
    forall k: nat
      ensures TablePaths([img0.l1[i]], k) == Refs(img0.l1[i], k)
    {
      TablePathsOne(img0.l1[i], k);
    }
    FreeStep(c, img2, [img0.l1[i]]);
    SnapsKeptTwice(img0, b, c);
    SnapsKeptTwice(img0, c, img2);
    forall backing, s: nat
      ensures Guest(img2, backing, s) == Guest(img0, backing, s)
    {
      SwapGuest(b, i, h, backing, s);
      assert Guest(img2, backing, s) == Guest(c, backing, s);
    }
  }
}
