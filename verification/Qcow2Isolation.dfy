/**
  Snapshot isolation: what a run of operations does to one snapshot, of the meaning of an image
  and of the image itself.
 */
module Qcow2Isolation {
  import opened Arith
  import opened Qcow2Format
  import opened Qcow2Store
  import opened Qcow2Invariant
  import opened Qcow2Facts
  import opened Qcow2Image
  import opened Qcow2SnapshotIds
  import opened Qcow2Fresh
  import opened Qcow2Runs

  // ----- following a snapshot

  /** Where snapshot i is after an operation, or -1 if it was deleted. */
  function FollowStep(w: World, op: Op, i: nat): int {
    if !op.Delete? then i
    else
      var d := IndexOfKey(w.ids, w.names, op.key);
      if d < 0 || i < d then i else if i == d then -1 else i - 1
  }

  /** Where snapshot i is after the operations, or -1 if it was deleted. */
  function Follow(w: World, ops: seq<Op>, i: nat): int
    requires Shaped(w)
  {
    if ops == [] then i
    else
      var front := ops[..|ops| - 1];
      var j := Follow(w, front, i);
      if j < 0 then -1 else FollowStep(ApplyAll(w, front), ops[|ops| - 1], j)
  }

  /** Snapshot j of w' is what snapshot i of w was. */
  ghost predicate SameSnapshot(w: World, i: int, w': World, j: int) {
    && 0 <= i < |w.ids| && 0 <= j < |w'.ids| && Shaped(w) && Shaped(w')
    && w'.ids[j] == w.ids[i] && w'.names[j] == w.names[i] && w'.contents[j] == w.contents[i]
  }

  /** No operation changes a snapshot that it does not delete. */
  lemma StepIsolates(w: World, op: Op, i: nat)
    requires Shaped(w) && i < |w.ids| && FollowStep(w, op, i) >= 0
    ensures SameSnapshot(w, i, Apply(w, op), FollowStep(w, op, i))
  {
    hide IndexOf, NewId;
  }

  /** A snapshot keeps its guest disk, id and name through any run, until it is deleted. */
  lemma {:induction false} SnapshotIsolation(w: World, ops: seq<Op>, i: nat)
    requires Shaped(w) && i < |w.ids| && Follow(w, ops, i) >= 0
    ensures SameSnapshot(w, i, ApplyAll(w, ops), Follow(w, ops, i))
    decreases |ops|
  {
    hide Apply, FollowStep;
    if ops != [] {
      var front := ops[..|ops| - 1];
      SnapshotIsolation(w, front, i);
      StepIsolates(ApplyAll(w, front), ops[|ops| - 1], Follow(w, front, i));
    }
  }

  // ----- by id

  /** Snapshot i, and no other, has this id. */
  ghost predicate OnlyOne(w: World, id: string, i: int) {
    0 <= i < |w.ids| && w.ids[i] == id && forall j :: 0 <= j < |w.ids| && j != i ==> w.ids[j] != id
  }

  lemma OnlyOneStep(w: World, op: Op, id: string, i: nat)
    requires Shaped(w) && OnlyOne(w, id, i) && id in Apply(w, op).ids
    ensures OnlyOne(Apply(w, op), id, FollowStep(w, op, i))
  {
    hide IndexOf, NewId;
    if op.Create? { IndexOfIs(w.ids, GivenId(w.ids, op.id)); }
  }

  /** A snapshot whose id stays on the list is not deleted. */
  lemma {:induction false} FollowById(w: World, ops: seq<Op>, id: string, i: nat)
    requires Shaped(w) && OnlyOne(w, id, i) && forall k :: 0 <= k <= |ops| ==> id in ApplyAll(w, ops[..k]).ids
    ensures OnlyOne(ApplyAll(w, ops), id, Follow(w, ops, i))
    decreases |ops|
  {
    hide Apply, FollowStep;
    if ops != [] {
      var front := ops[..|ops| - 1];
      forall k | 0 <= k <= |front|
        ensures front[..k] == ops[..k]
      {
      }
      FollowById(w, front, id, i);
      assert ops[..|ops|] == ops;
      OnlyOneStep(ApplyAll(w, front), ops[|ops| - 1], id, Follow(w, front, i));
    }
  }

  /** The key is the id, or a name that only the snapshot with this id has and that is nobody's id. */
  ghost predicate Finds(w: World, key: string, id: string)
    requires Shaped(w)
  {
    key == id || (key !in w.ids && forall j :: 0 <= j < |w.ids| ==> (w.names[j] == key <==> w.ids[j] == id))
  }

  lemma FindsIt(w: World, key: string, id: string, i: int)
    requires Shaped(w) && OnlyOne(w, id, i) && Finds(w, key, id)
    ensures IndexOfKey(w.ids, w.names, key) == i
  {
    hide IndexOf;
    IndexOfIs(w.ids, key);
    IndexOfIs(w.names, key);
  }

  /** Taking a snapshot, doing anything that keeps it, and going back by id or by name restores the disk as it was. */
  lemma CreateThenGoto(w: World, idStr: string, name: string, ops: seq<Op>, key: string)
    requires Shaped(w) && GivenId(w.ids, idStr) !in w.ids
    requires var w1 := Apply(w, Create(idStr, name));
             && (forall k :: 0 <= k <= |ops| ==> GivenId(w.ids, idStr) in ApplyAll(w1, ops[..k]).ids)
             && Finds(ApplyAll(w1, ops), key, GivenId(w.ids, idStr))
    ensures Apply(ApplyAll(Apply(w, Create(idStr, name)), ops), Goto(key)).disk == w.disk
  {
    hide IndexOf, NewId, ApplyAll, Follow;
    var id, w1 := GivenId(w.ids, idStr), Apply(w, Create(idStr, name));
    IndexOfIs(w.ids, id);
    assert OnlyOne(w1, id, |w.ids|);
    FollowById(w1, ops, id, |w.ids|);
    SnapshotIsolation(w1, ops, |w.ids|);
    FindsIt(ApplyAll(w1, ops), key, id, Follow(w1, ops, |w.ids|));
  }

  // ----- of the image

  /** What the meaning says of the guest disk and of a snapshot, sector by sector. */
  lemma MeaningAt(img: Img, backing: seq<Sector>, n: nat, s: nat)
    requires s < n
    ensures |Meaning(img, backing, n).disk| == n && Meaning(img, backing, n).disk[s] == Guest(img, backing, s)
    ensures forall i :: 0 <= i < |img.snapshots| ==>
              |Meaning(img, backing, n).contents[i]| == n &&
              Meaning(img, backing, n).contents[i][s] == SnapGuest(img, backing, i, s)
  {
    hide GuestAt, SnapL1;
  }

  lemma MeaningSize(img: Img, backing: seq<Sector>, n: nat)
    ensures |Meaning(img, backing, n).ids| == |img.snapshots|
  {
  }

  /** Runs operations on an image: snapshot i of it keeps its guest disk until it is deleted. */
  method RunKeeps(im: Image, ops: seq<Op>, ghost n: nat, ghost i: nat) returns (ok: bool, outs: seq<seq<Sector>>)
    requires im.Ready([]) && Covers(|im.l1Table|, n) && forall k :: 0 <= k < |ops| ==> Fits(ops[k], n)
    requires CountsFit(Meaning(im.View(), im.backing, n), ops) && i < |im.snapshots|
    modifies im, im.st
    ensures ok <==> !im.st.exhausted
    ensures ok ==> Meaning(im.View(), im.backing, n) == ApplyAll(old(Meaning(im.View(), im.backing, n)), ops)
    ensures ok ==> var j := Follow(old(Meaning(im.View(), im.backing, n)), ops, i);
                   j >= 0 ==> j < |im.snapshots| && forall s: nat :: s < n ==>
                                SnapGuest(im.View(), im.backing, j, s) == old(SnapGuest(im.View(), im.backing, i, s))
  {
    hide Inv, Meaning, Covers, CountsFit, Follow, ApplyAll, Outputs, Spent, GuestAt, SnapL1;
    ghost var img, w := im.View(), Meaning(im.View(), im.backing, n);
    MeaningSize(img, im.backing, n);
    ok, outs := RunOps(im, ops, n);
    if ok && Follow(w, ops, i) >= 0 {
      ghost var j := Follow(w, ops, i);
      SnapshotIsolation(w, ops, i);
      MeaningSize(im.View(), im.backing, n);
      forall s: nat | s < n
        ensures SnapGuest(im.View(), im.backing, j, s) == SnapGuest(img, im.backing, i, s)
      {
        MeaningAt(img, im.backing, n, s);
        MeaningAt(im.View(), im.backing, n, s);
      }
    }
  }

  /** On an image: takes a snapshot, runs operations that keep it, and goes back to the guest disk as it was. */
  method CreateRunGoto(im: Image, idStr: string, name: string, ops: seq<Op>, key: string, ghost n: nat)
      returns (ok: bool)
    requires im.Ready([]) && Covers(|im.l1Table|, n) && forall k :: 0 <= k < |ops| ==> Fits(ops[k], n)
    requires |im.snapshots| + 1 < MAX_REFCOUNT && GivenId(Ids(im.snapshots), idStr) !in Ids(im.snapshots)
    requires var w1 := Apply(Meaning(im.View(), im.backing, n), Create(idStr, name));
             && CountsFit(w1, ops) && |ApplyAll(w1, ops).ids| + 1 < MAX_REFCOUNT
             && (forall k :: 0 <= k <= |ops| ==> GivenId(Ids(im.snapshots), idStr) in ApplyAll(w1, ops[..k]).ids)
             && Finds(ApplyAll(w1, ops), key, GivenId(Ids(im.snapshots), idStr))
    modifies im, im.st
    ensures ok <==> !im.st.exhausted
    ensures ok ==> var w1 := Apply(old(Meaning(im.View(), im.backing, n)), Create(idStr, name));
                   Meaning(im.View(), im.backing, n) == Apply(ApplyAll(w1, ops), Goto(key))
    ensures ok ==> im.Ready([]) && forall s: nat :: s < n ==>
                     Guest(im.View(), im.backing, s) == old(Guest(im.View(), im.backing, s))
  {
    hide Inv, Meaning, Covers, CountsFit, Apply, ApplyAll, Spent, GuestAt, Need, NewId;
    ghost var img, w := im.View(), Meaning(im.View(), im.backing, n);
    MeaningParts(img, im.backing, n);
    CreateThenGoto(w, idStr, name, ops, key);
    var out, outs;
    ok, out := Step(im, Create(idStr, name), n);
    if !ok { return; }
    ok, outs := RunOps(im, ops, n);
    if !ok { return; }
    MeaningSize(im.View(), im.backing, n);
    ok, out := Step(im, Goto(key), n);
    if !ok { return; }
    forall s: nat | s < n
      ensures Guest(im.View(), im.backing, s) == Guest(img, im.backing, s)
    {
      MeaningAt(img, im.backing, n, s);
      MeaningAt(im.View(), im.backing, n, s);
    }
  }

  // ----- from a new image

  /** The backing file, cut or padded with zeros to n sectors. */
  function Padded(backing: seq<Sector>, n: nat): (r: seq<Sector>)
    ensures |r| == n && forall s: nat :: s < n ==> r[s] == if s < |backing| then backing[s] else 0
  {
    seq(n, s requires s >= 0 => Backing(backing, s))
  }

  /** A new image shows its backing file and has no snapshots. */
  lemma FreshMeaning(y: Layout, backing: seq<Sector>, n: nat)
    ensures Meaning(FreshImg(y), backing, n) == World(Padded(backing, n), [], [], [])
  {
    hide Div, Mod;
    assert Sectors(FreshImg(y), backing, n) == Padded(backing, n);
  }

  /** Any run on a new image with enough clusters succeeds, and does what it does to plain arrays. */
  method RunFromFresh(y: Layout, backing: seq<Sector>, ops: seq<Op>, n: nat)
      returns (im: Image, ok: bool, outs: seq<seq<Sector>>)
    requires LaidOut(y) && Covers(y.l1Size, n) && forall k :: 0 <= k < |ops| ==> Fits(ops[k], n)
    requires CountsFit(World(Padded(backing, n), [], [], []), ops)
    ensures fresh(im) && fresh(im.st)
    ensures var w := World(Padded(backing, n), [], [], []);
            && (ok ==> im.Ready([]) && Meaning(im.View(), backing, n) == ApplyAll(w, ops) && outs == Outputs(w, ops))
            && (Used(y) + NeedAll(w, y.l1Size, ops) <= y.clusters ==> ok)
  {
    hide Inv, Meaning, Covers, CountsFit, ApplyAll, Outputs, Room, Uses, LaidOut, Used, NeedAll, FreshDisk, FreshTable,
         FreshHeader, CountsOf;
    im := Fresh(y, backing);
    FreshMeaning(y, backing, n);
    ghost var w, spare := World(Padded(backing, n), [], [], []), im.st.Spare();
    ok, outs := RunOps(im, ops, n);
    if Used(y) + NeedAll(w, y.l1Size, ops) <= y.clusters {
      RoomLess(spare, NeedAll(w, y.l1Size, ops), y.clusters - Used(y));
    }
  }
}
