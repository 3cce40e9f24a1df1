/**
  Opening a qcow2 image from its file, and what is left of an open image when it is closed and
  opened again: everything.
 */
module Qcow2Reopen {
  import opened Arith
  import opened Qcow2Format
  import opened Qcow2Store
  import opened Qcow2Invariant
  import opened Qcow2SnapshotTable
  import Qcow2SnapshotFile
  import opened Qcow2Header
  import opened Qcow2Image
  import opened Qcow2Runs
  import opened Qcow2Fresh
  import opened Qcow2Isolation

  // ----- reading the snapshot table

  /** The bytes of a cluster; those of tables and data are no concern of the reader. */
  function BytesOf(c: Cluster): seq<byte> {
    if c.Blob? then c.bytes else seq(CLUSTER_BYTES, _ => 0)
  }

  /** The bytes of the file from a cluster on. */
  function BytesFrom(d: Disk, first: nat): seq<byte>
    decreases |d| - first
  {
    if first >= |d| then [] else BytesOf(d[first]) + BytesFrom(d, first + 1)
  }

  lemma {:induction false} BytesOfTable(d: Disk, first: nat, bs: seq<seq<byte>>)
    requires first + |bs| <= |d| && forall k :: first <= k < first + |bs| ==> d[k] == Blob(bs[k - first])
    ensures Flat(bs) <= BytesFrom(d, first)
    decreases |bs|
  {
    if bs != [] {
      assert d[first] == Blob(bs[0]);
      BytesOfTable(d, first + 1, bs[1..]);
    }
  }

  /** Reads the snapshot list: none, or nb records from cluster first on. */
  method ReadSnapshots(st: Store, first: nat, nb: nat, ghost img: Img) returns (sns: seq<Snapshot>, size: nat)
    requires img.disk == st.disk && Inv(img, []) && Saved(img) && first == img.snapOffset && nb == |img.snapshots|
    ensures sns == img.snapshots && size == TableSize(img.snapshots)
  {
    hide Inv, Saved, Div, AllInBytes, AllInClusters, Flat, BytesFrom, Qcow2SnapshotFile.Written,
         Qcow2SnapshotFile.Holds;
    if nb == 0 { return [], 0; }
    var b := BytesFrom(st.disk, first);
    var file := new byte[|b|](i requires 0 <= i < |b| => b[i]);
    assert file[..] == b;
    TableReadable(img);
    BytesAndBack(img.snapshots);
    var ok, r;
    ok, r, size := Qcow2SnapshotFile.ReadTable(file, 0, nb, AllInBytes(img.snapshots));
    sns := AllInClusters(r);
  }

  lemma TableReadable(img: Img)
    requires Inv(img, []) && Saved(img)
    ensures Qcow2SnapshotFile.Written(BytesFrom(img.disk, img.snapOffset), 0, AllInBytes(img.snapshots))
  {
    hide Trees, Exact, Flags, Field, Flat, BytesFrom, Qcow2SnapshotFile.Holds, Storable, TableNeed, Meta, ReadL1, Limit,
         Recordable;
    BytesOfTable(img.disk, img.snapOffset, img.table);
    Qcow2SnapshotFile.HoldsLonger(Flat(img.table), BytesFrom(img.disk, img.snapOffset), 0, AllInBytes(img.snapshots));
    forall n | 0 <= n < |img.snapshots|
      ensures Storable(AllInBytes(img.snapshots)[n])
    {
      assert SnapOk(img, img.snapshots[n]);
      IsStorable(img, img.snapshots[n]);
    }
  }

  lemma IsStorable(img: Img, sn: Snapshot)
    requires Recordable(sn) && sn.l1Size == |img.l1| && sn.l1Offset <= |img.disk| && HeaderRight(img) && Sized(img)
    ensures Storable(InBytes(sn))
  {
    hide Limit, FromBe, CeilDiv, Pow2;
    Monotone(sn.l1Offset, |img.disk|);
    FromBeBound(img.header[L1_SIZE_AT..L1_SIZE_AT + 4]);
  }

  lemma {:induction false} FromBeBound(s: seq<byte>)
    ensures FromBe(s) < Limit(|s|)
    decreases |s|
  {
    if s != [] { FromBeBound(s[..|s| - 1]); }
  }

  // ----- opening

  /** qcow_open: everything about the image is taken from the bytes and tables of its file. */
  method Open(st: Store, backing: seq<Sector>, ghost img: Img) returns (im: Image)
    requires st.Valid() && !st.exhausted && Inv(img, []) && Saved(img)
    requires img.disk == st.disk && img.rc == st.Rc() && img.blocks == st.refcountTable
    ensures fresh(im) && im.st == st && im.backing == backing && im.Ready([]) && im.View() == img
  {
    hide Inv, Saved, Div, CountsOf, BlocksOk, Field, ReadL1, CeilDiv;
    OnFile(img);
    var h := st.disk[0].bytes;
    var l1Size, l1Offset := Field(h, L1_SIZE_AT, 4), Div(Field(h, L1_OFFSET_AT, 8), CLUSTER_BYTES);
    var rtClusters, rtOffset := Field(h, RT_CLUSTERS_AT, 4), Div(Field(h, RT_OFFSET_AT, 8), CLUSTER_BYTES);
    var nb, offset := Field(h, NB_SNAPSHOTS_AT, 4), Div(Field(h, SNAPSHOTS_OFFSET_AT, 8), CLUSTER_BYTES);
    var sns, size := ReadSnapshots(st, offset, nb, img);
    im := new Image(st, backing, l1Offset, l1Size, sns, offset, size, rtOffset, rtClusters, img.header, img.table);
  }

  /** The header and the level-1 table in the file are those of the image. */
  lemma OnFile(img: Img)
    requires Inv(img, []) && Saved(img)
    ensures 0 < |img.disk| && img.disk[0] == Blob(img.header) && Accepts(img.header)
    ensures var h := img.header;
            && Field(h, L1_SIZE_AT, 4) == |img.l1| && Div(Field(h, L1_OFFSET_AT, 8), CLUSTER_BYTES) == img.l1Offset
            && Field(h, RT_CLUSTERS_AT, 4) == img.rtClusters
            && Div(Field(h, RT_OFFSET_AT, 8), CLUSTER_BYTES) == img.rtOffset
            && Field(h, NB_SNAPSHOTS_AT, 4) == |img.snapshots|
            && Div(Field(h, SNAPSHOTS_OFFSET_AT, 8), CLUSTER_BYTES) == img.snapOffset
    ensures ReadL1(img.disk, img.l1Offset, |img.l1|) == img.l1
    ensures img.snapClusters == CeilDiv(TableSize(img.snapshots), CLUSTER_BYTES)
  {
    hide Trees, Exact, Flags, Field, Flat, ReadL1, CeilDiv, Meta, Div, Accepts, TableSize;
    StartsAt(img.l1Offset);
    StartsAt(img.rtOffset);
    StartsAt(img.snapOffset);
    assert FixedRefs(img, 0) > 0;
  }

  /** Closes an image and opens its file again, with new caches: it is as it was. */
  method Reopen(im: Image) returns (im': Image)
    requires im.Ready([]) && Saved(im.View())
    ensures fresh(im') && fresh(im'.st) && im'.Ready([]) && im'.View() == im.View() && im'.backing == im.backing
  {
    hide Inv, Saved, CountsOf, BlocksOk;
    var st := new Store(im.st.disk, im.st.refcountTable);
    im' := Open(st, im.backing, im.View());
  }

  // ----- sessions

  function Joined(runs: seq<seq<Op>>): seq<Op> {
    if runs == [] then [] else Joined(runs[..|runs| - 1]) + runs[|runs| - 1]
  }

  lemma {:induction false} ApplyJoined(w: World, a: seq<Op>, b: seq<Op>)
    requires Shaped(w)
    ensures ApplyAll(w, a + b) == ApplyAll(ApplyAll(w, a), b)
    ensures Outputs(w, a + b) == Outputs(w, a) + Outputs(ApplyAll(w, a), b)
    decreases |b|
  {
    hide Apply, Part;
    if b == [] {
      assert a + b == a;
    } else {
      assert (a + b)[..|a + b| - 1] == a + b[..|b| - 1] && (a + b)[|a + b| - 1] == b[|b| - 1];
      ApplyJoined(w, a, b[..|b| - 1]);
    }
  }

  lemma FitJoined(w: World, a: seq<Op>, b: seq<Op>)
    requires Shaped(w) && CountsFit(w, a + b)
    ensures CountsFit(ApplyAll(w, a), b) && CountsFit(w, a)
  {
    hide ApplyAll;
    forall i | 0 <= i < |b|
      ensures |ApplyAll(ApplyAll(w, a), b[..i]).ids| + 1 < MAX_REFCOUNT
    {
      ApplyJoined(w, a, b[..i]);
      assert (a + b)[..|a| + i] == a + b[..i];
    }
    forall i | 0 <= i < |a|
      ensures |ApplyAll(w, a[..i]).ids| + 1 < MAX_REFCOUNT
    {
      assert (a + b)[..i] == a[..i];
    }
  }

  /** Each session stays within the disk, and its snapshots can be recorded. */
  ghost predicate Proper(ops: seq<Op>, n: nat) {
    AllNamesFit(ops) && forall i :: 0 <= i < |ops| ==> Fits(ops[i], n)
  }

  /**
    A new image is used in any number of sessions, closed and opened again after each. Its meaning is
    what all operations of all sessions make of plain arrays.
   */
  method Sessions(y: Layout, backing: seq<Sector>, runs: seq<seq<Op>>, n: nat)
      returns (im: Image, ok: bool, outs: seq<seq<Sector>>, ghost images: seq<Image>)
    requires LaidOut(y) && Describable(y) && Covers(y.l1Size, n)
    requires forall i :: 0 <= i < |runs| ==> Proper(runs[i], n)
    requires CountsFit(World(Padded(backing, n), [], [], []), Joined(runs))
    ensures fresh(im) && fresh(im.st) && (ok <==> !im.st.exhausted)
    ensures var w := World(Padded(backing, n), [], [], []);
            ok ==> im.Ready([]) && Meaning(im.View(), backing, n) == ApplyAll(w, Joined(runs))
                   && outs == Outputs(w, Joined(runs))
    ensures ok ==> |images| == |runs| + 1 && images[|runs|] == im && Apart(images)
  {
    hide Inv, Saved, Meaning, Covers, ApplyAll, Outputs, CountsFit, Spent, Proper, Room, LaidOut, Describable,
         FreshDisk, FreshTable, FreshHeader;
    ghost var w := World(Padded(backing, n), [], [], []);
    FreshSaved(y);
    FreshMeaning(y, backing, n);
    im := Fresh(y, backing);
    NoOps(w);
    ok, outs, images := true, [], [im];
    var i := 0;
    while i < |runs|
      invariant i <= |runs| && ok && fresh(im) && fresh(im.st) && |images| == i + 1 && images[i] == im && Apart(images)
      invariant forall j :: 0 <= j <= i ==> fresh(images[j]) && fresh(images[j].st)
      invariant im.Ready([]) && Saved(im.View()) && im.backing == backing && |im.l1Table| == y.l1Size
      invariant Meaning(im.View(), backing, n) == ApplyAll(w, Joined(runs[..i]))
      invariant outs == Outputs(w, Joined(runs[..i]))
    {
      SessionFits(w, runs, i);
      ProperIs(runs[i], n);
      var more;
      ok, more := RunOps(im, runs[i], n);
      if !ok { return; }
      outs := outs + more;
      im := Reopen(im);
      images := images + [im];
      i := i + 1;
    }
    assert runs[..i] == runs;
  }

  /** The images are different objects, each with a file and caches of its own. */
  ghost predicate Apart(ims: seq<Image>) {
    forall i, j :: 0 <= i < j < |ims| ==> ims[i] != ims[j] && ims[i].st != ims[j].st
  }

  lemma ProperIs(ops: seq<Op>, n: nat)
    requires Proper(ops, n)
    ensures AllNamesFit(ops) && forall i :: 0 <= i < |ops| ==> Fits(ops[i], n)
  {
  }

  lemma NoOps(w: World)
    requires Shaped(w)
    ensures ApplyAll(w, Joined([])) == w && Outputs(w, Joined([])) == []
  {
  }

  lemma FreshSaved(y: Layout)
    requires LaidOut(y) && Describable(y)
    ensures Saved(FreshImg(y))
  {
    hide Filed, Sized, LaidOut, Describable;
    FreshFiled(y);
  }

  /** Session i starts where the ones before it ended, with counts that leave room for its snapshots. */
  lemma SessionFits(w: World, runs: seq<seq<Op>>, i: nat)
    requires Shaped(w) && i < |runs| && CountsFit(w, Joined(runs))
    ensures var front := Joined(runs[..i]);
            && CountsFit(ApplyAll(w, front), runs[i])
            && ApplyAll(w, Joined(runs[..i + 1])) == ApplyAll(ApplyAll(w, front), runs[i])
            && Outputs(w, Joined(runs[..i + 1])) == Outputs(w, front) + Outputs(ApplyAll(w, front), runs[i])
  {
    hide CountsFit;
    PrefixFits(w, runs, i + 1);
    assert runs[..i + 1][..i] == runs[..i] && runs[..i + 1][i] == runs[i];
    FitJoined(w, Joined(runs[..i]), runs[i]);
    ApplyJoined(w, Joined(runs[..i]), runs[i]);
  }

  lemma {:induction false} PrefixFits(w: World, runs: seq<seq<Op>>, i: nat)
    requires Shaped(w) && i <= |runs| && CountsFit(w, Joined(runs))
    ensures CountsFit(w, Joined(runs[..i]))
    decreases |runs|
  {
    hide CountsFit;
    if i < |runs| {
      FitJoined(w, Joined(runs[..|runs| - 1]), runs[|runs| - 1]);
      PrefixFits(w, runs[..|runs| - 1], i);
      assert runs[..|runs| - 1][..i] == runs[..i];
    } else {
      assert runs[..i] == runs;
    }
  }
}
