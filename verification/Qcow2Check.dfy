/**
  The consistency check of a qcow2 image: walks everything that refers to clusters, tallies
  the references, and compares the tally with the stored counts. It reports no error exactly
  when the counts and the COPIED flags are right, which is what every operation keeps.
 */
module Qcow2Check {
  import opened Arith
  import opened Qcow2Format
  import opened Qcow2Store
  import opened Qcow2Invariant
  import opened Qcow2Image
  import opened Qcow2Runs

  /** An unused entry has no flag. */
  ghost predicate Plain(t: seq<Entry>) {
    forall j :: 0 <= j < |t| && t[j].host == 0 ==> t[j] == Unused
  }

  ghost predicate PlainTree(d: Disk, l1: seq<Entry>) {
    Plain(l1) && forall i :: 0 <= i < |l1| && l1[i].host != 0 ==> Plain(Table(d, l1[i].host))
  }

  /** The entries of t name clusters below n. */
  ghost predicate InFile(t: seq<Entry>, n: nat) {
    forall j :: 0 <= j < |t| ==> t[j].host == 0 || t[j].host < n
  }

  /** Everything under one level-1 entry is in the file, and has the right flags if they are checked. */
  ghost predicate EntrySound(d: Disk, rc: seq<nat>, e: Entry, flags: bool) {
    e.host != 0 ==>
      && e.host < |rc| && InFile(Table(d, e.host), |rc|)
      && (flags ==> (e.copied <==> rc[e.host] == 1) && FlagsRight(rc, Table(d, e.host)))
  }

  ghost predicate TreeSound(d: Disk, rc: seq<nat>, l1: seq<Entry>, flags: bool) {
    forall i :: 0 <= i < |l1| ==> EntrySound(d, rc, l1[i], flags)
  }

  /** Adds one reference to each of n clusters; those outside the file are errors. */
  method IncRefcounts(tally: array<nat>, first: nat, n: nat) returns (errors: nat)
    modifies tally
    ensures forall k :: 0 <= k < tally.Length ==> tally[k] == old(tally[k]) + Within(k, first, n)
    ensures errors == 0 <==> n == 0 || first + n <= tally.Length
  {
    errors := 0;
    var i := 0;
    while i < n
      invariant i <= n && (errors == 0 <==> i == 0 || first + i <= tally.Length)
      invariant forall k :: 0 <= k < tally.Length ==> tally[k] == old(tally[k]) + Within(k, first, i)
    {
      var k := first + i;
      if k >= tally.Length {
        errors := errors + 1;
      } else {
        tally[k] := tally[k] + 1;
      }
      i := i + 1;
    }
  }

  /** Compares the flag of an entry with the count of its cluster. */
  method CheckFlag(st: Store, e: Entry, flags: bool) returns (errors: nat)
    requires st.Valid()
    modifies st`refcountBlockCache, st`refcountBlockCacheOffset
    ensures st.Valid()
    ensures flags && e.host < |st.disk| ==> (errors == 0 <==> (e.copied <==> st.Rc()[e.host] == 1))
    ensures !flags ==> errors == 0
  {
    errors := 0;
    if flags {
      var r := st.GetRefcount(e.host);
      if (r == 1) != e.copied { errors := 1; }
    }
  }

  /** Tallies the references of a level-2 table. */
  method CheckTable(st: Store, tally: array<nat>, t: seq<Entry>, flags: bool) returns (errors: nat)
    requires st.Valid() && tally.Length == |st.disk| && Plain(t)
    modifies tally, st`refcountBlockCache, st`refcountBlockCacheOffset
    ensures st.Valid()
    ensures forall k :: 0 <= k < tally.Length ==> tally[k] == old(tally[k]) + TablePaths(t, k)
    ensures errors == 0 <==> InFile(t, |st.disk|) && (flags ==> FlagsRight(st.Rc(), t))
  {
    hide BlocksOk, CountsOf;
    errors := 0;
    var j := 0;
    while j < |t|
      invariant j <= |t| && st.Valid()
      invariant forall k :: 0 <= k < tally.Length ==> tally[k] == old(tally[k]) + TablePaths(t[..j], k)
      invariant errors == 0 <==> InFile(t[..j], |st.disk|) && (flags ==> FlagsRight(st.Rc(), t[..j]))
    {
      assert t[..j + 1] == t[..j] + [t[j]];
      OneMoreFree(t, j);
      SoundMore(st.Rc(), t, j);
      if t[j] != Unused {
        var e1 := CheckFlag(st, t[j], flags);
        var e2 := IncRefcounts(tally, t[j].host, 1);
        errors := errors + e1 + e2;
      }
      j := j + 1;
    }
    assert t[..j] == t;
  }

  lemma SoundMore(rc: seq<nat>, t: seq<Entry>, j: nat)
    requires j < |t|
    ensures InFile(t[..j + 1], |rc|) <==> InFile(t[..j], |rc|) && (t[j].host == 0 || t[j].host < |rc|)
    ensures FlagsRight(rc, t[..j + 1]) <==>
              FlagsRight(rc, t[..j]) && (t[j].host != 0 ==> t[j].host < |rc| && (t[j].copied <==> rc[t[j].host] == 1))
  {
    assert t[..j + 1] == t[..j] + [t[j]];
    assert t[..j + 1][j] == t[j];
    assert forall x :: 0 <= x < j ==> t[..j + 1][x] == t[..j][x];
  }

  /** Tallies the references under one level-1 entry. */
  method CheckEntry(st: Store, tally: array<nat>, e: Entry, flags: bool) returns (errors: nat)
    requires st.Valid() && tally.Length == |st.disk| &&
               if e.host == 0 then e == Unused else Plain(Table(st.disk, e.host))
    modifies tally, st`refcountBlockCache, st`refcountBlockCacheOffset
    ensures st.Valid()
    ensures forall k :: 0 <= k < tally.Length ==> tally[k] == old(tally[k]) + EntryPaths(st.disk, e, k)
    ensures errors == 0 <==> EntrySound(st.disk, st.Rc(), e, flags)
  {
    hide BlocksOk, CountsOf;
    errors := 0;
    if e != Unused {
      var e1 := CheckFlag(st, e, flags);
      var e2 := CheckTable(st, tally, Table(st.disk, e.host), flags);
      var e3 := IncRefcounts(tally, e.host, 1);
      errors := e1 + e2 + e3;
    }
  }

  /** A level-1 table and the tree under it. */
  ghost predicate L1Sound(d: Disk, rc: seq<nat>, offset: nat, n: nat, flags: bool) {
    && (L1Clusters(n) == 0 || offset + L1Clusters(n) <= |rc|)
    && TreeSound(d, rc, ReadL1(d, offset, n), flags)
  }

  ghost function L1Refs(d: Disk, offset: nat, n: nat, k: nat): nat {
    Within(k, offset, L1Clusters(n)) + RootPaths(d, ReadL1(d, offset, n), k)
  }

  /** Tallies a level-1 table and everything under it. */
  method CheckL1(st: Store, tally: array<nat>, offset: nat, n: nat, flags: bool) returns (errors: nat)
    requires st.Valid() && tally.Length == |st.disk| && PlainTree(st.disk, ReadL1(st.disk, offset, n))
    modifies tally, st`refcountBlockCache, st`refcountBlockCacheOffset
    ensures st.Valid()
    ensures forall k :: 0 <= k < tally.Length ==> tally[k] == old(tally[k]) + L1Refs(st.disk, offset, n, k)
    ensures errors == 0 <==> L1Sound(st.disk, st.Rc(), offset, n, flags)
  {
    hide BlocksOk, CountsOf, EntrySound, EntryPaths, Plain, CeilDiv;
    errors := IncRefcounts(tally, offset, L1Clusters(n));
    var l1 := ReadL1(st.disk, offset, n);
    var i := 0;
    while i < |l1|
      invariant i <= |l1| && st.Valid()
      invariant forall k :: 0 <= k < tally.Length ==>
                  tally[k] == old(tally[k]) + Within(k, offset, L1Clusters(n)) + RootPaths(st.disk, l1[..i], k)
      invariant errors == 0 <==> (L1Clusters(n) == 0 || offset + L1Clusters(n) <= tally.Length)
                                 && forall x :: 0 <= x < i ==> EntrySound(st.disk, st.Rc(), l1[x], flags)
    {
      OneMoreEntry(st.disk, l1, i);
      PlainAt(st.disk, l1, i);
      var e := CheckEntry(st, tally, l1[i], flags);
      errors := errors + e;
      i := i + 1;
    }
    assert l1[..i] == l1;
  }

  lemma OneMoreEntry(d: Disk, l1: seq<Entry>, i: nat)
    requires i < |l1|
    ensures forall k: nat :: RootPaths(d, l1[..i + 1], k) == RootPaths(d, l1[..i], k) + EntryPaths(d, l1[i], k)
  {
    assert l1[..i + 1][..i] == l1[..i];
  }

  lemma PlainAt(d: Disk, l1: seq<Entry>, i: nat)
    requires PlainTree(d, l1) && i < |l1|
    ensures if l1[i].host == 0 then l1[i] == Unused else Plain(Table(d, l1[i].host))
  {
  }

  // ----- the whole image

  ghost predicate SnapshotsSound(d: Disk, rc: seq<nat>, sns: seq<Snapshot>) {
    forall n :: 0 <= n < |sns| ==> L1Sound(d, rc, sns[n].l1Offset, sns[n].l1Size, false)
  }

  /** Tallies the tables and trees of all snapshots. */
  method CheckSnapshots(st: Store, tally: array<nat>, sns: seq<Snapshot>) returns (errors: nat)
    requires st.Valid() && tally.Length == |st.disk|
    requires forall n :: 0 <= n < |sns| ==> PlainTree(st.disk, SnapL1(st.disk, sns[n]))
    modifies tally, st`refcountBlockCache, st`refcountBlockCacheOffset
    ensures st.Valid()
    ensures forall k :: 0 <= k < tally.Length ==>
              tally[k] == old(tally[k]) + SnapMeta(sns, k) + SnapPaths(st.disk, sns, k)
    ensures errors == 0 <==> SnapshotsSound(st.disk, st.Rc(), sns)
  {
    hide BlocksOk, CountsOf, L1Sound, PlainTree, CeilDiv;
    errors := 0;
    var n := 0;
    while n < |sns|
      invariant n <= |sns| && st.Valid()
      invariant forall k :: 0 <= k < tally.Length ==>
                  tally[k] == old(tally[k]) + SnapMeta(sns[..n], k) + SnapPaths(st.disk, sns[..n], k)
      invariant errors == 0 <==> forall x :: 0 <= x < n ==>
                  L1Sound(st.disk, st.Rc(), sns[x].l1Offset, sns[x].l1Size, false)
    {
      assert sns[..n + 1][..n] == sns[..n];
      assert PlainTree(st.disk, SnapL1(st.disk, sns[n]));
      var e := CheckL1(st, tally, sns[n].l1Offset, sns[n].l1Size, false);
      errors := errors + e;
      n := n + 1;
    }
    assert sns[..n] == sns;
  }

  /** Tallies the refcount blocks. */
  method CheckBlocks(st: Store, tally: array<nat>) returns (errors: nat)
    requires st.Valid() && tally.Length == |st.disk|
    modifies tally
    ensures forall k :: 0 <= k < tally.Length ==> tally[k] == old(tally[k]) + if k in st.refcountTable then 1 else 0
    ensures errors == 0
  {
    hide CountsOf;
    errors := 0;
    var i, rt := 0, st.refcountTable;
    while i < |rt|
      invariant i <= |rt| && errors == 0
      invariant forall k :: 0 <= k < tally.Length ==> tally[k] == old(tally[k]) + if k in rt[..i] then 1 else 0
    {
      assert rt[..i + 1] == rt[..i] + [rt[i]];
      assert rt[i] !in rt[..i];
      if rt[i] != 0 {
        var e := IncRefcounts(tally, rt[i], 1);
        errors := errors + e;
      }
      i := i + 1;
    }
    assert rt[..i] == rt;
  }

  /** Compares the tally with the stored counts. */
  method Compare(st: Store, tally: array<nat>) returns (errors: nat)
    requires st.Valid() && tally.Length == |st.disk|
    modifies st`refcountBlockCache, st`refcountBlockCacheOffset
    ensures st.Valid()
    ensures errors == 0 <==> forall k :: 0 <= k < tally.Length ==> st.Rc()[k] == tally[k]
  {
    hide BlocksOk, CountsOf;
    errors := 0;
    var i := 0;
    while i < tally.Length
      invariant i <= tally.Length && st.Valid()
      invariant errors == 0 <==> forall k :: 0 <= k < i ==> st.Rc()[k] == tally[k]
    {
      var r := st.GetRefcount(i);
      if r != tally[i] { errors := errors + 1; }
      i := i + 1;
    }
  }

  /** The image as its file has it. */
  ghost function OnFile(im: Image): Img
    reads im, im.st
  {
    im.View().(l1 := ReadL1(im.st.disk, im.l1TableOffset, |im.l1Table|))
  }

  /** What is counted outside the trees lies in the file. */
  ghost predicate InBounds(img: Img) {
    && 0 < |img.rc|
    && (img.snapClusters == 0 || img.snapOffset + img.snapClusters <= |img.rc|)
    && (img.rtClusters == 0 || img.rtOffset + img.rtClusters <= |img.rc|)
  }

  /** Everything referred to is in the file, and the active flags are right. */
  ghost predicate Referenced(img: Img) {
    && InBounds(img)
    && L1Sound(img.disk, img.rc, img.l1Offset, |img.l1|, true)
    && SnapshotsSound(img.disk, img.rc, img.snapshots)
  }

  ghost predicate Consistent(img: Img) {
    Referenced(img) && forall k :: 0 <= k < |img.rc| ==> img.rc[k] == References(img, k)
  }

  /** Tallies everything that refers to clusters. */
  method Tally(im: Image, tally: array<nat>) returns (errors: nat)
    requires im.st.Valid() && PlainTree(im.st.disk, OnFile(im).l1) && tally.Length == |im.st.disk|
    requires forall n :: 0 <= n < |im.snapshots| ==> PlainTree(im.st.disk, SnapL1(im.st.disk, im.snapshots[n]))
    requires forall k :: 0 <= k < tally.Length ==> tally[k] == 0
    modifies tally, im.st`refcountBlockCache, im.st`refcountBlockCacheOffset
    ensures im.st.Valid()
    ensures forall k :: 0 <= k < tally.Length ==> tally[k] == References(OnFile(im), k)
    ensures errors == 0 <==> Referenced(OnFile(im))
  {
    hide BlocksOk, CountsOf, L1Sound, SnapshotsSound, PlainTree, CeilDiv, RootPaths, SnapPaths, SnapMeta, ReadL1;
    var e1 := IncRefcounts(tally, 0, 1);
    var e2 := CheckL1(im.st, tally, im.l1TableOffset, |im.l1Table|, true);
    var e3 := CheckSnapshots(im.st, tally, im.snapshots);
    var e4 := IncRefcounts(tally, im.snapshotsOffset, CeilDiv(im.snapshotsSize, CLUSTER_BYTES));
    var e5 := IncRefcounts(tally, im.refcountTableOffset, im.refcountTableClusters);
    var e6 := CheckBlocks(im.st, tally);
    errors := e1 + e2 + e3 + e4 + e5 + e6;
  }

  /** check_refcounts: no error is reported exactly when the image is consistent. */
  method CheckRefcounts(im: Image) returns (errors: nat)
    requires im.st.Valid() && PlainTree(im.st.disk, OnFile(im).l1)
    requires forall n :: 0 <= n < |im.snapshots| ==> PlainTree(im.st.disk, SnapL1(im.st.disk, im.snapshots[n]))
    modifies im.st`refcountBlockCache, im.st`refcountBlockCacheOffset
    ensures im.st.Valid() && (errors == 0 <==> Consistent(OnFile(im)))
  {
    hide BlocksOk, CountsOf, Referenced, PlainTree, References;
    var tally := new nat[|im.st.disk|](_ => 0);
    var e1 := Tally(im, tally);
    var e2 := Compare(im.st, tally);
    errors := e1 + e2;
  }

  // ----- what every operation keeps passes the check

  lemma InvIsPlain(img: Img)
    requires Inv(img, [])
    ensures PlainTree(img.disk, img.l1)
    ensures forall n :: 0 <= n < |img.snapshots| ==> PlainTree(img.disk, SnapL1(img.disk, img.snapshots[n]))
  {
    hide Exact, Flags, Regions;
    TreeIsPlain(img.disk, img.l1);
    forall n | 0 <= n < |img.snapshots|
      ensures PlainTree(img.disk, SnapL1(img.disk, img.snapshots[n]))
    {
      TreeIsPlain(img.disk, SnapL1(img.disk, img.snapshots[n]));
    }
  }

  lemma TreeIsPlain(d: Disk, l1: seq<Entry>)
    requires RootOk(d, l1)
    ensures PlainTree(d, l1)
  {
    assert forall i :: 0 <= i < |l1| ==> SubtreeOk(d, l1[i]);
  }

  lemma TreeIsSound(d: Disk, rc: seq<nat>, l1: seq<Entry>, flags: bool)
    requires RootOk(d, l1) && |rc| == |d|
    requires flags ==> FlagsRight(rc, l1) && forall i ::
               0 <= i < |l1| && l1[i].host != 0 ==> FlagsRight(rc, Table(d, l1[i].host))
    ensures TreeSound(d, rc, l1, flags)
  {
    assert forall i :: 0 <= i < |l1| ==> SubtreeOk(d, l1[i]);
  }

  lemma InvInBounds(img: Img)
    requires Regions(img)
    ensures InBounds(img)
  {
    hide SnapMeta, CeilDiv, SnapOk, ReadL1;
    assert FixedRefs(img, 0) > 0;
    if img.rtClusters > 0 { assert FixedRefs(img, img.rtOffset + img.rtClusters - 1) > 0; }
  }

  lemma InvReferenced(img: Img)
    requires Inv(img, [])
    ensures Referenced(img) && ReadL1(img.disk, img.l1Offset, |img.l1|) == img.l1
  {
    hide Exact, Meta, FixedRefs, CeilDiv, RootOk, Tree, FlagsRight, TreeSound;
    InvInBounds(img);
    TreeIsSound(img.disk, img.rc, img.l1, true);
    forall n | 0 <= n < |img.snapshots|
      ensures L1Sound(img.disk, img.rc, img.snapshots[n].l1Offset, img.snapshots[n].l1Size, false)
    {
      assert SnapOk(img, img.snapshots[n]);
      TreeIsSound(img.disk, img.rc, SnapL1(img.disk, img.snapshots[n]), false);
    }
  }

  /** The check reports nothing on an image between operations. */
  method CheckPasses(im: Image) returns (errors: nat)
    requires im.Ready([])
    modifies im.st`refcountBlockCache, im.st`refcountBlockCacheOffset
    ensures errors == 0 && Consistent(OnFile(im)) && im.Ready([]) && im.View() == old(im.View())
  {
    hide Regions, Trees, Flags, References, Referenced, BlocksOk, CountsOf;
    InvIsPlain(im.View());
    InvReferenced(im.View());
    errors := CheckRefcounts(im);
  }

  /** After any run of operations the check reports nothing. */
  method RunAndCheck(im: Image, ops: seq<Op>, ghost n: nat) returns (ok: bool, errors: nat)
    requires im.Ready([]) && Covers(|im.l1Table|, n) && forall i :: 0 <= i < |ops| ==> Fits(ops[i], n)
    requires CountsFit(Meaning(im.View(), im.backing, n), ops)
    modifies im, im.st
    ensures ok <==> !im.st.exhausted
    ensures ok ==> errors == 0 && Consistent(OnFile(im))
    ensures ok ==> Meaning(im.View(), im.backing, n) == ApplyAll(old(Meaning(im.View(), im.backing, n)), ops)
  {
    hide Inv, Meaning, Covers, ApplyAll, CountsFit, Outputs, Spent, NeedAll, Consistent;
    var outs;
    ok, outs := RunOps(im, ops, n);
    errors := 0;
    if ok { errors := CheckPasses(im); }
  }

  /** An image that passes has exact counts and right flags in the active tree. */
  lemma ConsistentMeans(img: Img)
    requires Consistent(img) && ReadL1(img.disk, img.l1Offset, |img.l1|) == img.l1
    ensures Exact(img, []) && Flags(img)
  {
    assert forall i :: 0 <= i < |img.l1| ==> EntrySound(img.disk, img.rc, img.l1[i], true);
  }
}
