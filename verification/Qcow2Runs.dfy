/**
  Runs of writes, snapshot creations, restorations and deletions: what an image means, apart
  from clusters and tables, and the proof that every run of the driver does to the image what
  the meaning says.
 */
module Qcow2Runs {
  import opened Qcow2Format
  import opened Qcow2Store
  import opened Qcow2Invariant
  import opened Qcow2Steps
  import opened Qcow2Writing
  import opened Qcow2SnapshotIds
  import opened Qcow2SnapshotTable
  import opened Qcow2Header
  import opened Qcow2Facts
  import opened Qcow2Image
  import opened Arith

  /** The meaning of an image: the guest disk, and the name and guest disk of every snapshot. */
  datatype World = World(disk: seq<Sector>, ids: seq<string>, names: seq<string>, contents: seq<seq<Sector>>)

  datatype Op =
    | Read(s: nat, count: nat)
    | Write(s: nat, buf: seq<Sector>)
    | Create(id: string, name: string)
    | Goto(key: string)
    | Delete(key: string)

  function RemoveAt<T>(xs: seq<T>, i: nat): seq<T>
    requires i < |xs|
  {
    xs[..i] + xs[i + 1..]
  }

  ghost predicate Shaped(w: World) {
    |w.ids| == |w.names| == |w.contents|
  }

  /** The operation stays within a disk of n sectors. */
  predicate Fits(op: Op, n: nat) {
    match op
    case Read(s, count) => s + count <= n
    case Write(s, buf) => s + |buf| <= n
    case _ => true
  }

  function Apply(w: World, op: Op): (w': World)
    requires Shaped(w)
    ensures Shaped(w')
  {
    match op
    case Read(_, _) => w
    case Write(s, buf) =>
      if s + |buf| <= |w.disk| then w.(disk := w.disk[..s] + buf + w.disk[s + |buf|..]) else w
    case Create(idStr, name) =>
      var id := GivenId(w.ids, idStr);
      if IndexOf(w.ids, id) >= 0 then w
      else w.(ids := w.ids + [id], names := w.names + [name], contents := w.contents + [w.disk])
    case Goto(key) =>
      var i := IndexOfKey(w.ids, w.names, key);
      if i < 0 then w else w.(disk := w.contents[i])
    case Delete(key) =>
      var i := IndexOfKey(w.ids, w.names, key);
      if i < 0 then w
      else w.(ids := RemoveAt(w.ids, i), names := RemoveAt(w.names, i), contents := RemoveAt(w.contents, i))
  }

  function ApplyAll(w: World, ops: seq<Op>): (w': World)
    requires Shaped(w)
    ensures Shaped(w')
  {
    if ops == [] then w else Apply(ApplyAll(w, ops[..|ops| - 1]), ops[|ops| - 1])
  }

  /** What the reads among the operations return. */
  function Outputs(w: World, ops: seq<Op>): seq<seq<Sector>>
    requires Shaped(w)
  {
    if ops == [] then []
    else
      var front, last := ops[..|ops| - 1], ops[|ops| - 1];
      Outputs(w, front) + if last.Read? then [Part(ApplyAll(w, front).disk, last.s, last.count)] else []
  }

  function Part(disk: seq<Sector>, s: nat, count: nat): seq<Sector> {
    if s + count <= |disk| then disk[s..s + count] else []
  }

  // ----- what the operations need

  /** The snapshot table, as far as its size goes. */
  function Records(w: World): (r: seq<Snapshot>)
    requires Shaped(w)
    ensures |r| == |w.ids| && forall i :: 0 <= i < |r| ==> r[i] == Listed(w.ids[i], w.names[i])
  {
    seq(|w.ids|, i requires 0 <= i < |w.ids| => Listed(w.ids[i], w.names[i]))
  }

  /** Clusters that an operation may take. */
  ghost function Need(w: World, l1Size: nat, op: Op): nat
    requires Shaped(w)
  {
    match op
    case Read(_, _) => 0
    case Write(s, buf) => WriteNeed(s, |buf|)
    case Create(idStr, name) => CreateNeed(l1Size, Records(w), GivenId(w.ids, idStr), name)
    case Goto(_) => 0
    case Delete(key) => DeleteNeed(Records(w), key)
  }

  ghost function NeedAll(w: World, l1Size: nat, ops: seq<Op>): nat
    requires Shaped(w)
  {
    if ops == [] then 0
    else
      var front := ops[..|ops| - 1];
      NeedAll(w, l1Size, front) + Need(ApplyAll(w, front), l1Size, ops[|ops| - 1])
  }

  lemma {:induction false} NeedMono(w: World, l1Size: nat, ops: seq<Op>, i: nat)
    requires Shaped(w) && i <= |ops|
    ensures NeedAll(w, l1Size, ops[..i]) <= NeedAll(w, l1Size, ops)
    decreases |ops|
  {
    hide Need, ApplyAll;
    if i < |ops| {
      NeedMono(w, l1Size, ops[..|ops| - 1], i);
      assert ops[..|ops| - 1][..i] == ops[..i];
    } else {
      assert ops[..i] == ops;
    }
  }

  /** The first n guest sectors of the image and its snapshots. */
  ghost function Meaning(img: Img, backing: seq<Sector>, n: nat): (w: World)
    ensures Shaped(w)
  {
    World(Sectors(img, backing, n), Ids(img.snapshots), Names(img.snapshots),
          seq(|img.snapshots|, i requires 0 <= i < |img.snapshots| => SnapSectors(img, backing, i, n)))
  }

  ghost function Sectors(img: Img, backing: seq<Sector>, n: nat): (r: seq<Sector>)
    ensures |r| == n && forall s: nat :: s < n ==> r[s] == Guest(img, backing, s)
  {
    seq(n, s requires s >= 0 => Guest(img, backing, s))
  }

  ghost function SnapSectors(img: Img, backing: seq<Sector>, i: nat, n: nat): (r: seq<Sector>)
    requires i < |img.snapshots|
    ensures |r| == n && forall s: nat :: s < n ==> r[s] == SnapGuest(img, backing, i, s)
  {
    seq(n, s requires s >= 0 => SnapGuest(img, backing, i, s))
  }

  // ----- each operation does what its meaning says

  lemma WriteMeaning(img: Img, img': Img, backing: seq<Sector>, n: nat, s: nat, buf: seq<Sector>)
    requires SnapsKept(img, img') && s + |buf| <= n
    requires forall x: nat ::
               Guest(img', backing, x) == if s <= x < s + |buf| then buf[x - s] else Guest(img, backing, x)
    ensures Meaning(img', backing, n) == Apply(Meaning(img, backing, n), Write(s, buf))
  {
    hide GuestAt, SnapL1;
    var r := Sectors(img, backing, n);
    assert Sectors(img', backing, n) == r[..s] + buf + r[s + |buf|..];
    forall i | 0 <= i < |img.snapshots|
      ensures SnapSectors(img', backing, i, n) == SnapSectors(img, backing, i, n)
    {
      SnapSame(img, img', backing, i, i, n);
    }
  }

  lemma SnapSame(img: Img, img': Img, backing: seq<Sector>, i: nat, i': nat, n: nat)
    requires i < |img.snapshots| && i' < |img'.snapshots|
    requires forall s: nat :: SnapGuest(img', backing, i', s) == SnapGuest(img, backing, i, s)
    ensures SnapSectors(img', backing, i', n) == SnapSectors(img, backing, i, n)
  {
    hide GuestAt, SnapL1;
  }

  lemma SameMeaning(img: Img, img': Img, backing: seq<Sector>, n: nat)
    requires SameGuest(img, img')
    ensures Sectors(img', backing, n) == Sectors(img, backing, n)
  {
    hide GuestAt;
    forall s: nat | s < n
      ensures Sectors(img', backing, n)[s] == Sectors(img, backing, n)[s]
    {
      assert Guest(img', backing, s) == Guest(img, backing, s);
    }
  }

  lemma CreateMeaning(img: Img, img': Img, backing: seq<Sector>, n: nat, idStr: string, id: string, name: string)
    requires SnapshotAdded(img, img', id, name) && SameGuest(img, img') && IndexOf(Ids(img.snapshots), id) < 0
    requires id == GivenId(Ids(img.snapshots), idStr)
    ensures Meaning(img', backing, n) == Apply(Meaning(img, backing, n), Create(idStr, name))
  {
    hide GuestAt, SnapL1, IndexOf;
    SameMeaning(img, img', backing, n);
    var m := |img.snapshots|;
    var w, w' := Meaning(img, backing, n), Meaning(img', backing, n);
    forall i | 0 <= i < m
      ensures w'.contents[i] == w.contents[i] && w'.ids[i] == w.ids[i] && w'.names[i] == w.names[i]
    {
      assert img'.snapshots[i] == img'.snapshots[..m][i];
      SnapSame(img, img', backing, i, i, n);
    }
    assert SnapSectors(img', backing, m, n) == Sectors(img, backing, n);
    assert w'.contents == w.contents + [w.disk];
    assert w'.ids == w.ids + [id] && w'.names == w.names + [name];
  }

  lemma GotoMeaning(img: Img, img': Img, backing: seq<Sector>, n: nat, key: string)
    requires SnapsKept(img, img') && KeyOf(img.snapshots, key) >= 0
    requires forall backing', s: nat ::
               Guest(img', backing', s) == SnapGuest(img, backing', KeyOf(img.snapshots, key), s)
    ensures Meaning(img', backing, n) == Apply(Meaning(img, backing, n), Goto(key))
  {
    hide GuestAt, SnapL1, IndexOf;
    var i := KeyOf(img.snapshots, key);
    assert Sectors(img', backing, n) == SnapSectors(img, backing, i, n);
    forall x | 0 <= x < |img.snapshots|
      ensures SnapSectors(img', backing, x, n) == SnapSectors(img, backing, x, n)
    {
      SnapSame(img, img', backing, x, x, n);
    }
  }

  lemma DeleteMeaning(img: Img, img': Img, backing: seq<Sector>, n: nat, key: string)
    requires KeyOf(img.snapshots, key) >= 0 && SnapshotRemoved(img, img', KeyOf(img.snapshots, key))
    requires SameGuest(img, img')
    ensures Meaning(img', backing, n) == Apply(Meaning(img, backing, n), Delete(key))
  {
    hide GuestAt, SnapL1, IndexOf, SameGuest;
    SameMeaning(img, img', backing, n);
    RemovedMeaning(img, img', backing, n, KeyOf(img.snapshots, key));
  }

  lemma RemovedMeaning(img: Img, img': Img, backing: seq<Sector>, n: nat, i: nat)
    requires i < |img.snapshots| && SnapshotRemoved(img, img', i)
    ensures var w, w' := Meaning(img, backing, n), Meaning(img', backing, n);
            && w'.contents == RemoveAt(w.contents, i) && w'.ids == RemoveAt(w.ids, i)
            && w'.names == RemoveAt(w.names, i)
  {
    hide GuestAt, SnapL1;
    var w, w' := Meaning(img, backing, n), Meaning(img', backing, n);
    forall x | 0 <= x < |img'.snapshots|
      ensures w'.contents[x] == RemoveAt(w.contents, i)[x] && w'.ids[x] == RemoveAt(w.ids, i)[x]
      ensures w'.names[x] == RemoveAt(w.names, i)[x]
    {
      SnapSame(img, img', backing, if x < i then x else x + 1, x, n);
    }
  }

  // ----- runs

  /** The level-1 table has entries for the first n sectors. */
  ghost predicate Covers(l1Size: nat, n: nat) {
    n > 0 ==> Div(Div(n - 1, CLUSTER_SECTORS), L2_SIZE) < l1Size
  }

  /** One operation on an open image of n sectors. */
  method Step(im: Image, op: Op, ghost n: nat) returns (ok: bool, out: seq<Sector>)
    requires im.Ready([]) && Covers(|im.l1Table|, n) && |im.snapshots| + 1 < MAX_REFCOUNT && Fits(op, n)
    modifies im, im.st
    ensures ok <==> !im.st.exhausted
    ensures ok ==> im.Ready([]) && |im.l1Table| == old(|im.l1Table|)
    ensures ok ==> Meaning(im.View(), im.backing, n) == Apply(old(Meaning(im.View(), im.backing, n)), op)
    ensures ok && op.Read? ==> out == Part(old(Meaning(im.View(), im.backing, n)).disk, op.s, op.count)
    ensures Spent(ok, old(im.st.Spare()), im.st.Spare(),
                  Need(old(Meaning(im.View(), im.backing, n)), old(|im.l1Table|), op))
    ensures ok && Saved(old(im.View())) && NamesFit(op) ==> Saved(im.View())
  {
    hide Inv, SnapsKept, SameGuest, Div, Mod, Meaning, SnapshotAdded, SnapshotRemoved, Spent, Uses, WriteNeed,
         CreateNeed, DeleteNeed, NewId, Filed, Saved, Sized, NamesFit;
    ghost var img, spare := im.View(), im.st.Spare();
    MeaningParts(img, im.backing, n);
    out := [];
    match op
    case Read(s, count) =>
      out := im.QcowRead(s, count, []);
      ok := true;
      ReadMeaning(img, im.backing, n, s, out);
      SpentNone(spare, im.st.Spare(), 0);
    case Write(s, buf) =>
      if |buf| > 0 { WithinDisk(s + |buf| - 1, n - 1); }
      ok := im.QcowWrite(s, buf);
      if ok {
        WriteMeaning(img, im.View(), im.backing, n, s, buf);
        SizeKept(spare, im.st.Spare(), WriteNeed(s, |buf|));
        if Saved(img) { SavedSame(img, im.View()); }
      }
    case Create(idStr, name) =>
      var ret;
      ghost var id := GivenId(Ids(img.snapshots), idStr);
      ok, ret := im.SnapshotCreate(idStr, name, 0, 0, 0, 0);
      CreateNeedIs(img, im.backing, n, id, name);
      if ok && IndexOf(Ids(img.snapshots), id) < 0 {
        CreateMeaning(img, im.View(), im.backing, n, idStr, id, name);
        SizeKept(spare, im.st.Spare(), CreateNeed(|img.l1|, img.snapshots, id, name));
        if Saved(img) && NamesFit(op) { SavedAdded(img, im.View(), idStr, name); }
      }
    case Goto(key) =>
      var ret := im.SnapshotGoto(key);
      ok := true;
      SpentUses(spare, im.st.Spare(), 0);
      SizeKept(spare, im.st.Spare(), 0);
      if KeyOf(img.snapshots, key) >= 0 { GotoMeaning(img, im.View(), im.backing, n, key); }
      if Saved(img) { SavedSame(img, im.View()); }
    case Delete(key) =>
      var ret;
      ok, ret := im.SnapshotDelete(key);
      DeleteNeedIs(img, im.backing, n, key);
      if ok && KeyOf(img.snapshots, key) >= 0 {
        DeleteMeaning(img, im.View(), im.backing, n, key);
        SizeKept(spare, im.st.Spare(), DeleteNeed(img.snapshots, key));
        if Saved(img) { SavedRemoved(img, im.View(), KeyOf(img.snapshots, key)); }
      }
  }

  lemma SizeKept(s: Space, s': Space, m: nat)
    requires Spent(true, s, s', m)
    ensures |s'.rc| == |s.rc|
  {
  }

  /** The names that the operation gives a snapshot fit its record. */
  ghost predicate NamesFit(op: Op) {
    op.Create? ==> Nameable(op.id) && Nameable(op.name)
  }

  ghost predicate AllNamesFit(ops: seq<Op>) {
    forall i :: 0 <= i < |ops| ==> NamesFit(ops[i])
  }

  lemma OneFits(ops: seq<Op>, i: nat)
    requires AllNamesFit(ops) && i < |ops|
    ensures NamesFit(ops[i])
  {
  }

  lemma SavedAdded(img: Img, img': Img, idStr: string, name: string)
    requires Saved(img) && NamesFit(Create(idStr, name)) && |img.snapshots| + 1 < MAX_REFCOUNT
    requires SnapshotAdded(img, img', GivenId(Ids(img.snapshots), idStr), name) && |img'.disk| == |img.disk|
    requires Describes(img'.snapshots[|img.snapshots|], GivenId(Ids(img.snapshots), idStr), name, 0, 0, 0, 0)
    requires Filed(img) && Sized(img') ==> Filed(img')
    ensures Saved(img')
  {
    hide Filed, SnapGuest, Guest, NewId, Nameable;
    LimitsLarge();
    GivenFits(Ids(img.snapshots), idStr);
    forall n | 0 <= n < |img'.snapshots|
      ensures Recordable(img'.snapshots[n])
    {
      if n < |img.snapshots| { assert img'.snapshots[n] == img.snapshots[n]; }
    }
  }

  lemma LimitsLarge()
    ensures MAX_REFCOUNT < Limit(4) && 0 < Limit(8) && 11 < Limit(2)
  {
    assert Limit(2) == 0x1_0000;
  }

  lemma GivenFits(ids: seq<string>, idStr: string)
    requires Nameable(idStr)
    ensures Nameable(GivenId(ids, idStr))
  {
    LimitsLarge();
    NewIdShort(ids);
  }

  lemma SavedRemoved(img: Img, img': Img, i: nat)
    requires Saved(img) && i < |img.snapshots| && SnapshotRemoved(img, img', i) && |img'.disk| == |img.disk|
    requires Filed(img) && Sized(img') ==> Filed(img')
    ensures Saved(img')
  {
    hide Filed, SnapGuest, Recordable, Limit;
  }

  lemma ReadMeaning(img: Img, backing: seq<Sector>, n: nat, s: nat, out: seq<Sector>)
    requires s + |out| <= n && forall t :: 0 <= t < |out| ==> out[t] == Guest(img, backing, s + t)
    ensures out == Part(Meaning(img, backing, n).disk, s, |out|)
  {
    hide GuestAt;
  }

  lemma CreateNeedIs(img: Img, backing: seq<Sector>, n: nat, id: string, name: string)
    ensures CreateNeed(|img.l1|, Records(Meaning(img, backing, n)), id, name)
              == CreateNeed(|img.l1|, img.snapshots, id, name)
  {
    hide TableNeed, L1Clusters;
    var w := Meaning(img, backing, n);
    SameTableNeed(Records(w) + [Listed(id, name)], img.snapshots + [Listed(id, name)]);
  }

  lemma DeleteNeedIs(img: Img, backing: seq<Sector>, n: nat, key: string)
    ensures DeleteNeed(Records(Meaning(img, backing, n)), key) == DeleteNeed(img.snapshots, key)
  {
    hide TableNeed, IndexOf;
    var r := Records(Meaning(img, backing, n));
    assert Ids(r) == Ids(img.snapshots) && Names(r) == Names(img.snapshots);
    var i := KeyOf(r, key);
    if i >= 0 { SameTableNeed(Without(r, i), Without(img.snapshots, i)); }
  }

  lemma MeaningParts(img: Img, backing: seq<Sector>, n: nat)
    ensures |Meaning(img, backing, n).disk| == n
    ensures Meaning(img, backing, n).ids == Ids(img.snapshots) && Meaning(img, backing, n).names == Names(img.snapshots)
  {
  }

  /** All along the run the number of snapshots leaves room in the 16-bit counts. */
  ghost predicate CountsFit(w: World, ops: seq<Op>)
    requires Shaped(w)
  {
    forall i :: 0 <= i < |ops| ==> |ApplyAll(w, ops[..i]).ids| + 1 < MAX_REFCOUNT
  }

  /**
    Any run of operations: the image stays consistent, means what the operations mean, and returns
    what they return. It fails only if at the start there was no room for all that they may take.
   */
  method RunOps(im: Image, ops: seq<Op>, ghost n: nat) returns (ok: bool, outs: seq<seq<Sector>>)
    requires im.Ready([]) && Covers(|im.l1Table|, n) && forall i :: 0 <= i < |ops| ==> Fits(ops[i], n)
    requires CountsFit(Meaning(im.View(), im.backing, n), ops)
    modifies im, im.st
    ensures ok <==> !im.st.exhausted
    ensures ok ==> im.Ready([]) && |im.l1Table| == old(|im.l1Table|)
    ensures ok ==> Meaning(im.View(), im.backing, n) == ApplyAll(old(Meaning(im.View(), im.backing, n)), ops)
    ensures ok ==> outs == Outputs(old(Meaning(im.View(), im.backing, n)), ops)
    ensures Spent(ok, old(im.st.Spare()), im.st.Spare(),
                  NeedAll(old(Meaning(im.View(), im.backing, n)), old(|im.l1Table|), ops))
    ensures ok && Saved(old(im.View())) && AllNamesFit(ops) ==> Saved(im.View())
  {
    hide Inv, Meaning, Covers, Apply, Spent, Uses, Need, Part, Saved, NamesFit, AllNamesFit;
    ghost var w, size, spare := Meaning(im.View(), im.backing, n), |im.l1Table|, im.st.Spare();
    ok, outs := true, [];
    var i := 0;
    UsesNone(spare, spare);
    while i < |ops|
      invariant i <= |ops| && ok && im.Ready([]) && |im.l1Table| == size
      invariant Meaning(im.View(), im.backing, n) == ApplyAll(w, ops[..i]) && outs == Outputs(w, ops[..i])
      invariant Uses(spare, im.st.Spare(), NeedAll(w, size, ops[..i]))
      invariant Saved(old(im.View())) && AllNamesFit(ops) ==> Saved(im.View())
    {
      assert ops[..i + 1][..i] == ops[..i] && ops[..i + 1][i] == ops[i];
      MeaningParts(im.View(), im.backing, n);
      assert AllNamesFit(ops) ==> NamesFit(ops[i]) by { if AllNamesFit(ops) { OneFits(ops, i); } }
      ghost var before := im.st.Spare();
      var out;
      ok, out := Step(im, ops[i], n);
      SpentThen(ok, spare, before, im.st.Spare(), NeedAll(w, size, ops[..i]),
                Need(ApplyAll(w, ops[..i]), size, ops[i]));
      if !ok {
        NeedMono(w, size, ops, i + 1);
        SpentMore(ok, spare, im.st.Spare(), NeedAll(w, size, ops[..i + 1]), NeedAll(w, size, ops));
        return;
      }
      SpentIs(spare, im.st.Spare(), NeedAll(w, size, ops[..i + 1]));
      if ops[i].Read? { outs := outs + [out]; }
      i := i + 1;
    }
    assert ops[..i] == ops;
    SpentUses(spare, im.st.Spare(), NeedAll(w, size, ops));
  }
}
