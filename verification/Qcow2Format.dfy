/**
  The two-level mapping of a qcow2 image, as values: table entries, clusters of the
  image file, the tree of references a level-1 table spans, and the guest disk a
  level-1 table describes.
 */
module Qcow2Format {
  import opened Arith

  // Geometry of the image: entries of a level-2 table (one cluster of 8-byte words),
  // 512-byte sectors of a cluster, 2-byte counts of a refcount block, bytes of a cluster.
  const L2_SIZE: pos
  const CLUSTER_SECTORS: pos
  const BLOCK_COUNTS: pos
  const CLUSTER_BYTES: pos

  const MAX_REFCOUNT: nat := 0xffff

  const QCOW_HEADER_SIZE: nat := 72  // bytes of the header, in cluster 0

  type byte = x: int | 0 <= x < 256

  /** The 512 bytes of a sector, read as one number. */
  type Sector = nat

  /** A table word: the host cluster its offset names (0 for none) and QCOW_OFLAG_COPIED. */
  datatype Entry = Entry(host: nat, copied: bool)

  const Unused := Entry(0, false)

  /** A cluster of the image file, by the use it was last written for. */
  datatype Cluster =
    | L1(entries: seq<Entry>)
    | L2(entries: seq<Entry>)
    | Data(sectors: seq<Sector>)
    | Counts(counts: seq<nat>)
    | Blob(bytes: seq<byte>)  // the header, the refcount table, the snapshot table

  type Disk = seq<Cluster>

  /** The clusters from first on were overwritten with these bytes. */
  ghost predicate BlobsWritten(d: Disk, d': Disk, first: nat, bs: seq<seq<byte>>) {
    && |d'| == |d|
    && forall c :: 0 <= c < |d| ==> d'[c] == if first <= c < first + |bs| then Blob(bs[c - first]) else d[c]
  }

  /** A snapshot: where its level-1 table is, and what the snapshot table records about it. */
  datatype Snapshot = Snapshot(
    l1Offset: nat, l1Size: nat, id: string, name: string,
    vmStateSize: nat, dateSec: nat, dateNsec: nat, vmClockNsec: nat)

  /** The level-2 table in cluster h. */
  function Table(d: Disk, h: nat): seq<Entry> {
    if h < |d| && d[h].L2? then d[h].entries else []
  }

  function Within(k: nat, first: nat, n: nat): nat {
    if first <= k < first + n then 1 else 0
  }

  // ----- level-1 tables in the file

  function L1Clusters(n: nat): nat { CeilDiv(n, L2_SIZE) }

  function L1At(d: Disk, offset: nat, i: nat): Entry {
    var c, x := offset + Div(i, L2_SIZE), Mod(i, L2_SIZE);
    if c < |d| && d[c].L1? && x < |d[c].entries| then d[c].entries[x] else Unused
  }

  /** The level-1 table of n entries stored from cluster offset on. */
  function ReadL1(d: Disk, offset: nat, n: nat): (l1: seq<Entry>)
    ensures |l1| == n && forall i :: 0 <= i < n ==> l1[i] == L1At(d, offset, i)
  {
    seq(n, i requires i >= 0 => L1At(d, offset, i))
  }

  function SnapL1(d: Disk, sn: Snapshot): seq<Entry> { ReadL1(d, sn.l1Offset, sn.l1Size) }

  // ----- the references of a table and of a tree

  function Refs(e: Entry, k: nat): nat {
    if e.host == k && k != 0 then 1 else 0
  }

  /** How often the entries of t name cluster k. */
  function TablePaths(t: seq<Entry>, k: nat): nat {
    if t == [] then 0 else TablePaths(t[..|t| - 1], k) + Refs(t[|t| - 1], k)
  }

  /** How often cluster k is met below (and at) the level-1 entry e. */
  function EntryPaths(d: Disk, e: Entry, k: nat): nat {
    if e.host == 0 then 0 else Refs(e, k) + TablePaths(Table(d, e.host), k)
  }

  /** How often cluster k is met in a walk of the whole tree under l1. */
  function RootPaths(d: Disk, l1: seq<Entry>, k: nat): nat {
    if l1 == [] then 0
    else RootPaths(d, l1[..|l1| - 1], k) + EntryPaths(d, l1[|l1| - 1], k)
  }

  lemma {:induction false} TablePathsConcat(a: seq<Entry>, b: seq<Entry>, k: nat)
    ensures TablePaths(a + b, k) == TablePaths(a, k) + TablePaths(b, k)
  {
    if b == [] {
      assert a + b == a;
    } else {
      assert (a + b)[..|a + b| - 1] == a + b[..|b| - 1];
      TablePathsConcat(a, b[..|b| - 1], k);
    }
  }

  lemma {:induction false} RootPathsConcat(d: Disk, a: seq<Entry>, b: seq<Entry>, k: nat)
    ensures RootPaths(d, a + b, k) == RootPaths(d, a, k) + RootPaths(d, b, k)
  {
    if b == [] {
      assert a + b == a;
    } else {
      assert (a + b)[..|a + b| - 1] == a + b[..|b| - 1];
      RootPathsConcat(d, a, b[..|b| - 1], k);
    }
  }

  /** The count of a table, split at entry j. */
  lemma TablePathsSplit(t: seq<Entry>, j: nat, k: nat)
    requires j < |t|
    ensures TablePaths(t, k) == TablePaths(t[..j], k) + Refs(t[j], k) + TablePaths(t[j + 1..], k)
  {
    assert t == t[..j] + ([t[j]] + t[j + 1..]);
    TablePathsConcat(t[..j], [t[j]] + t[j + 1..], k);
    TablePathsConcat([t[j]], t[j + 1..], k);
    TablePathsOne(t[j], k);
  }

  lemma TablePathsOne(e: Entry, k: nat)
    ensures TablePaths([e], k) == Refs(e, k)
  {
    assert [e][..0] == [];
  }

  lemma RootPathsSplit(d: Disk, l1: seq<Entry>, i: nat, k: nat)
    requires i < |l1|
    ensures RootPaths(d, l1, k)
         == RootPaths(d, l1[..i], k) + EntryPaths(d, l1[i], k) + RootPaths(d, l1[i + 1..], k)
  {
    assert l1 == l1[..i] + ([l1[i]] + l1[i + 1..]);
    RootPathsConcat(d, l1[..i], [l1[i]] + l1[i + 1..], k);
    RootPathsConcat(d, [l1[i]], l1[i + 1..], k);
    assert [l1[i]][..0] == [];
    assert RootPaths(d, [l1[i]], k) == EntryPaths(d, l1[i], k);
  }

  /** An entry that names k is counted. */
  lemma TablePathsAt(t: seq<Entry>, j: nat, k: nat)
    requires j < |t| && t[j].host == k && k != 0
    ensures TablePaths(t, k) >= 1
  {
    TablePathsSplit(t, j, k);
  }

  /** Two entries that name k are both counted. */
  lemma TablePathsTwo(t: seq<Entry>, j: nat, j': nat, k: nat)
    requires j < j' < |t| && t[j].host == t[j'].host == k && k != 0
    ensures TablePaths(t, k) >= 2
  {
    TablePathsSplit(t, j', k);
    TablePathsAt(t[..j'], j, k);
  }

  lemma RootPathsAt(d: Disk, l1: seq<Entry>, i: nat, k: nat)
    requires i < |l1|
    ensures RootPaths(d, l1, k) >= EntryPaths(d, l1[i], k)
  {
    RootPathsSplit(d, l1, i, k);
  }

  lemma RootPathsTwo(d: Disk, l1: seq<Entry>, i: nat, i': nat, k: nat)
    requires i < i' < |l1|
    ensures RootPaths(d, l1, k) >= EntryPaths(d, l1[i], k) + EntryPaths(d, l1[i'], k)
  {
    RootPathsSplit(d, l1, i', k);
    RootPathsAt(d, l1[..i'], i, k);
  }

  /** Replacing one level-1 entry moves the count by the difference of the two subtrees. */
  lemma RootPathsSet(d: Disk, l1: seq<Entry>, i: nat, e: Entry, k: nat)
    requires i < |l1|
    ensures RootPaths(d, l1[i := e], k) + EntryPaths(d, l1[i], k)
         == RootPaths(d, l1, k) + EntryPaths(d, e, k)
  {
    RootPathsSplit(d, l1, i, k);
    RootPathsSplit(d, l1[i := e], i, k);
    assert l1[i := e][..i] == l1[..i] && l1[i := e][i + 1..] == l1[i + 1..];
  }

  // ----- well-formed trees

  ghost predicate TableOk(d: Disk, t: seq<Entry>) {
    && |t| == L2_SIZE
    && (forall j :: 0 <= j < |t| ==> EntryOk(d, t[j]))
  }

  /** A level-2 entry is unused, or names a data cluster. */
  ghost predicate EntryOk(d: Disk, e: Entry) {
    if e.host == 0 then e == Unused
    else e.host < |d| && d[e.host].Data? && |d[e.host].sectors| == CLUSTER_SECTORS
  }

  ghost predicate SubtreeOk(d: Disk, e: Entry) {
    if e.host == 0 then e == Unused
    else e.host < |d| && d[e.host].L2? && TableOk(d, d[e.host].entries)
  }

  /** Every table and data cluster of the tree is present and used for what its place says. */
  ghost predicate RootOk(d: Disk, l1: seq<Entry>) {
    forall i :: 0 <= i < |l1| ==> SubtreeOk(d, l1[i])
  }

  /** No cluster is met twice in a walk of the tree. */
  ghost predicate Tree(d: Disk, l1: seq<Entry>) {
    forall k: nat :: RootPaths(d, l1, k) <= 1
  }

  // ----- the guest disk

  /** The contents of a sector that no cluster holds: the backing file, zero past its end. */
  function Backing(backing: seq<Sector>, s: nat): Sector {
    if s < |backing| then backing[s] else 0
  }

  /** Host cluster of guest cluster g under l1; 0 when none is allocated. */
  function HostOf(d: Disk, l1: seq<Entry>, g: nat): nat {
    var i, j := Div(g, L2_SIZE), Mod(g, L2_SIZE);
    if i < |l1| && l1[i].host != 0 && j < |Table(d, l1[i].host)|
    then Table(d, l1[i].host)[j].host else 0
  }

  /** Sector o of a cluster, zero where the cluster has none. */
  function SectorOf(d: Disk, h: nat, o: nat): Sector {
    if h < |d| && d[h].Data? && o < |d[h].sectors| then d[h].sectors[o] else 0
  }

  /** Sector s of the guest disk that l1 describes. */
  function GuestAt(d: Disk, l1: seq<Entry>, backing: seq<Sector>, s: nat): Sector {
    var h := HostOf(d, l1, Div(s, CLUSTER_SECTORS));
    if h == 0 then Backing(backing, s) else SectorOf(d, h, Mod(s, CLUSTER_SECTORS))
  }

  /** A tree that never meets k has no table and no data cluster at k. */
  lemma NotMet(d: Disk, l1: seq<Entry>, k: nat)
    requires RootPaths(d, l1, k) == 0 && k != 0
    ensures forall i :: 0 <= i < |l1| ==> l1[i].host != k
    ensures forall i, j :: 0 <= i < |l1| && l1[i].host != 0 && 0 <= j < |Table(d, l1[i].host)|
              ==> Table(d, l1[i].host)[j].host != k
  {
    forall i | 0 <= i < |l1|
      ensures l1[i].host != k
    {
      RootPathsAt(d, l1, i, k);
    }
    forall i, j | 0 <= i < |l1| && l1[i].host != 0 && 0 <= j < |Table(d, l1[i].host)|
      ensures Table(d, l1[i].host)[j].host != k
    {
      RootPathsAt(d, l1, i, k);
      if Table(d, l1[i].host)[j].host == k { TablePathsAt(Table(d, l1[i].host), j, k); }
    }
  }

  // ----- disks that differ only in flags, counts, and a set of written clusters

  ghost predicate SameHosts(a: seq<Entry>, b: seq<Entry>) {
    && |a| == |b|
    && (forall i :: 0 <= i < |a| ==> a[i].host == b[i].host && (a[i] == Unused <==> b[i] == Unused))
  }

  /** Same use and same contents, up to the flags of table words and the values of counts. */
  ghost predicate Alike(a: Cluster, b: Cluster) {
    match a
    case L1(e) => b.L1? && SameHosts(e, b.entries)
    case L2(e) => b.L2? && SameHosts(e, b.entries)
    case Counts(_) => b.Counts?
    case Data(_) => a == b
    case Blob(_) => a == b
  }

  /** d' is d with the clusters in w rewritten and the rest alike. */
  ghost predicate AlikeOutside(d: Disk, d': Disk, w: set<nat>) {
    && |d| == |d'|
    && (forall c :: 0 <= c < |d| && c !in w ==> Alike(d[c], d'[c]))
  }

  /** The tree under l1 meets no cluster of w. */
  ghost predicate Avoids(d: Disk, l1: seq<Entry>, w: set<nat>) {
    forall k :: k in w ==> k != 0 && RootPaths(d, l1, k) == 0
  }

  lemma {:induction false} TablePathsAlike(a: seq<Entry>, b: seq<Entry>, k: nat)
    requires SameHosts(a, b)
    ensures TablePaths(a, k) == TablePaths(b, k)
  {
    if a != [] { TablePathsAlike(a[..|a| - 1], b[..|b| - 1], k); }
  }

  lemma {:induction false} RootPathsAlike(d: Disk, l1: seq<Entry>, d': Disk, l1': seq<Entry>, k: nat)
    requires SameHosts(l1, l1')
    requires forall i :: 0 <= i < |l1| && l1[i].host != 0 ==> SameHosts(Table(d, l1[i].host), Table(d', l1[i].host))
    ensures RootPaths(d, l1, k) == RootPaths(d', l1', k)
  {
    if l1 != [] {
      RootPathsAlike(d, l1[..|l1| - 1], d', l1'[..|l1| - 1], k);
      var e := l1[|l1| - 1];
      if e.host != 0 { TablePathsAlike(Table(d, e.host), Table(d', e.host), k); }
    }
  }

  /** The tables of a tree that avoids w stay alike. */
  lemma TablesStay(d: Disk, l1: seq<Entry>, d': Disk, w: set<nat>)
    requires AlikeOutside(d, d', w) && Avoids(d, l1, w)
    ensures forall i :: 0 <= i < |l1| && l1[i].host != 0
              ==> l1[i].host !in w && SameHosts(Table(d, l1[i].host), Table(d', l1[i].host))
  {
    forall i | 0 <= i < |l1| && l1[i].host != 0
      ensures l1[i].host !in w && SameHosts(Table(d, l1[i].host), Table(d', l1[i].host))
    {
      RootPathsAt(d, l1, i, l1[i].host);
    }
  }

  /** A tree that avoids what is written keeps its references... */
  lemma PathsStay(d: Disk, l1: seq<Entry>, d': Disk, l1': seq<Entry>, w: set<nat>)
    requires AlikeOutside(d, d', w) && Avoids(d, l1, w) && SameHosts(l1, l1')
    ensures forall k: nat :: RootPaths(d', l1', k) == RootPaths(d, l1, k)
  {
    TablesStay(d, l1, d', w);
    forall k: nat
      ensures RootPaths(d', l1', k) == RootPaths(d, l1, k)
    {
      RootPathsAlike(d, l1, d', l1', k);
    }
  }

  /** ... stays well formed ... */
  lemma RootStays(d: Disk, l1: seq<Entry>, d': Disk, l1': seq<Entry>, w: set<nat>)
    requires AlikeOutside(d, d', w) && Avoids(d, l1, w) && SameHosts(l1, l1') && RootOk(d, l1)
    ensures RootOk(d', l1')
  {
    TablesStay(d, l1, d', w);
    forall i | 0 <= i < |l1| && l1[i].host != 0
      ensures SubtreeOk(d', l1'[i])
    {
      var t, t' := Table(d, l1[i].host), Table(d', l1[i].host);
      forall j | 0 <= j < |t'|
        ensures EntryOk(d', t'[j])
      {
        if t[j].host != 0 && t[j].host in w {
          NotMet(d, l1, t[j].host);
        }
      }
    }
  }

  /** ... and describes the same guest disk. */
  lemma GuestStays(d: Disk, l1: seq<Entry>, d': Disk, l1': seq<Entry>, w: set<nat>, backing: seq<Sector>, s: nat)
    requires AlikeOutside(d, d', w) && Avoids(d, l1, w) && SameHosts(l1, l1') && RootOk(d, l1)
    ensures GuestAt(d', l1', backing, s) == GuestAt(d, l1, backing, s)
  {
    TablesStay(d, l1, d', w);
    var g := Div(s, CLUSTER_SECTORS);
    var i, j := Div(g, L2_SIZE), Mod(g, L2_SIZE);
    if i < |l1| && l1[i].host != 0 {
      var h := Table(d, l1[i].host)[j].host;
      if h != 0 && h in w { NotMet(d, l1, h); }
    }
  }
}
