/**
  One pass of update_snapshot_refcount over the tree under a level-1 table: the counts of
  everything the tree meets move by the addend, and its COPIED flags are made right.
 */
module Qcow2Pass {
  import opened Qcow2Format
  import opened Qcow2Store
  import opened Qcow2Invariant
  import opened Qcow2Steps

  /** d' is d up to flags of level-2 entries and values of refcount blocks. */
  ghost predicate FlagsOnly(d: Disk, d': Disk) {
    && AlikeOutside(d, d', {})
    && (forall c :: 0 <= c < |d| && d[c].L1? ==> d'[c] == d[c])
  }

  /** The counts allow the addend to be applied to everything under l1. */
  ghost predicate InBounds(d: Disk, rc: seq<nat>, l1: seq<Entry>, addend: int) {
    forall k: nat :: k < |rc| ==> 0 <= rc[k] + Scaled(addend, RootPaths(d, l1, k)) <= MAX_REFCOUNT
  }

  /** The counts moved by the addend for everything under l1. */
  ghost predicate TreeCounted(d: Disk, rc: seq<nat>, rc': seq<nat>, l1: seq<Entry>, addend: int) {
    && |rc'| == |rc|
    && (forall k: nat :: k < |rc| ==> rc'[k] == rc[k] + Scaled(addend, RootPaths(d, l1, k)))
  }

  /** All flags under l1 are right. */
  ghost predicate TreeFlags(d: Disk, rc: seq<nat>, l1: seq<Entry>) {
    && FlagsRight(rc, l1)
    && (forall i :: 0 <= i < |l1| && l1[i].host != 0 ==> FlagsRight(rc, Table(d, l1[i].host)))
  }

  /** The first |l1'| entries of l1 have been passed over, giving l1', d and rc. */
  ghost predicate Passed(d0: Disk, rc0: seq<nat>, l1: seq<Entry>, addend: int, d: Disk, rc: seq<nat>, l1': seq<Entry>) {
    && |l1'| <= |l1| && SameHosts(l1[..|l1'|], l1') && FlagsOnly(d0, d)
    && TreeCounted(d0, rc0, rc, l1[..|l1'|], addend)
    && TreeFlags(d, rc, l1')
  }

  ghost predicate OneEntry(d: Disk, e: Entry) {
    && e.host < |d| && SubtreeOk(d, e) && (forall k: nat :: EntryPaths(d, e, k) <= 1)
  }

  /** What the pass does at one level-1 entry. */
  ghost predicate EntryPassed(d: Disk, rc: seq<nat>, e: Entry, addend: int, d': Disk, rc': seq<nat>, e': Entry) {
    && SameHosts([e], [e']) && SameOutside(d, d', {e.host}) && SameHosts(Table(d, e.host), Table(d', e.host))
    && (e.host < |d| && e.host != 0 ==> d'[e.host].L2?) && (e.host == 0 ==> SameOutside(d, d', {}))
    && |rc'| == |rc| && (forall k: nat :: k < |rc| ==> rc'[k] == rc[k] + Scaled(addend, EntryPaths(d, e, k)))
    && FlagsRight(rc', [e']) && (e.host != 0 ==> FlagsRight(rc', Table(d', e.host)))
  }

  lemma {:induction false} PrefixPaths(d: Disk, l1: seq<Entry>, i: nat, k: nat)
    requires i < |l1|
    ensures RootPaths(d, l1[..i + 1], k) == RootPaths(d, l1[..i], k) + EntryPaths(d, l1[i], k)
    ensures RootPaths(d, l1[..i + 1], k) <= RootPaths(d, l1, k)
  {
    assert l1[..i + 1][..i] == l1[..i];
    RootPathsSplit(d, l1, i, k);
  }

  /** The next entry is still as well formed and as separate as it was at the start. */
  lemma NextEntry(d0: Disk, rc0: seq<nat>, l1: seq<Entry>, addend: int, d: Disk, rc: seq<nat>, l1': seq<Entry>)
    requires GoodTree(d0, l1) && Passed(d0, rc0, l1, addend, d, rc, l1') && |l1'| < |l1|
    requires addend in {-1, 0, 1} && InBounds(d0, rc0, l1, addend) && |rc0| == |d0| && |d0| > 0
    requires forall k: nat :: k < |rc0| ==> rc0[k] <= MAX_REFCOUNT
    ensures OneEntry(d, l1[|l1'|])
    ensures forall k: nat :: EntryPaths(d, l1[|l1'|], k) == EntryPaths(d0, l1[|l1'|], k)
    ensures forall k: nat :: k < |rc| ==> 0 <= rc[k] + Scaled(addend, EntryPaths(d, l1[|l1'|], k)) <= MAX_REFCOUNT
    ensures forall k: nat :: RootPaths(d0, l1[..|l1'|], k) >= 1 ==> EntryPaths(d0, l1[|l1'|], k) == 0
  {
    hide RootPaths, TreeFlags, RootOk, TableOk;
    var i := |l1'|;
    var e := l1[i];
    forall k: nat
      ensures EntryPaths(d, e, k) == EntryPaths(d0, e, k)
      ensures RootPaths(d0, l1[..i], k) + EntryPaths(d0, e, k) <= RootPaths(d0, l1, k) <= 1
    {
      PrefixPaths(d0, l1, i, k);
      if e.host != 0 { TablePathsAlike(Table(d0, e.host), Table(d, e.host), k); }
    }
    SubtreeAlike(d0, d, l1, i);
  }

  lemma SubtreeAlike(d0: Disk, d: Disk, l1: seq<Entry>, i: nat)
    requires RootOk(d0, l1) && FlagsOnly(d0, d) && i < |l1| && |d0| > 0
    ensures SubtreeOk(d, l1[i]) && l1[i].host < |d|
  {
    assert SubtreeOk(d0, l1[i]);
    if l1[i].host != 0 {
      var t, t' := Table(d0, l1[i].host), Table(d, l1[i].host);
      forall j | 0 <= j < |t'|
        ensures EntryOk(d, t'[j])
      {
        assert EntryOk(d0, t[j]);
      }
    }
  }

  /** Passing over one more entry. */
  lemma PassStep(d0: Disk, rc0: seq<nat>, l1: seq<Entry>, addend: int, d: Disk, rc: seq<nat>, l1': seq<Entry>,
                 d2: Disk, rc2: seq<nat>, e': Entry)
    requires GoodTree(d0, l1) && Passed(d0, rc0, l1, addend, d, rc, l1') && |l1'| < |l1|
    requires EntryPassed(d, rc, l1[|l1'|], addend, d2, rc2, e')
    requires OneEntry(d, l1[|l1'|])
    requires forall k: nat :: EntryPaths(d, l1[|l1'|], k) == EntryPaths(d0, l1[|l1'|], k)
    requires forall k: nat :: RootPaths(d0, l1[..|l1'|], k) >= 1 ==> EntryPaths(d0, l1[|l1'|], k) == 0
    ensures Passed(d0, rc0, l1, addend, d2, rc2, l1' + [e'])
  {
    hide RootPaths, RootOk, TableOk, Tree, EntryPaths;
    var i := |l1'|;
    assert SameHosts(l1[..i + 1], l1' + [e']);
    StepFlagsOnly(d0, d, d2, l1[i], rc, addend, rc2, e');
    forall k: nat | k < |rc0|
      ensures rc2[k] == rc0[k] + Scaled(addend, RootPaths(d0, l1[..i + 1], k))
    {
      PrefixPaths(d0, l1, i, k);
    }
    StepFlags(d0, rc0, l1, addend, d, rc, l1', d2, rc2, e');
  }

  lemma StepFlagsOnly(d0: Disk, d: Disk, d2: Disk, e: Entry, rc: seq<nat>, addend: int, rc2: seq<nat>, e': Entry)
    requires FlagsOnly(d0, d) && EntryPassed(d, rc, e, addend, d2, rc2, e') && OneEntry(d, e)
    ensures FlagsOnly(d0, d2)
  {
    hide EntryPaths, TableOk, FlagsRight;
    forall c | 0 <= c < |d0|
      ensures Alike(d0[c], d2[c]) && (d0[c].L1? ==> d2[c] == d0[c])
    {
      assert Alike(d0[c], d[c]);
      if c == e.host && c != 0 { assert d2[c].L2? && SameHosts(d[c].entries, d2[c].entries); }
    }
  }

  lemma StepFlags(d0: Disk, rc0: seq<nat>, l1: seq<Entry>, addend: int, d: Disk, rc: seq<nat>, l1': seq<Entry>,
                  d2: Disk, rc2: seq<nat>, e': Entry)
    requires GoodTree(d0, l1) && Passed(d0, rc0, l1, addend, d, rc, l1') && |l1'| < |l1|
    requires EntryPassed(d, rc, l1[|l1'|], addend, d2, rc2, e')
    requires forall k: nat :: EntryPaths(d, l1[|l1'|], k) == EntryPaths(d0, l1[|l1'|], k)
    requires forall k: nat :: RootPaths(d0, l1[..|l1'|], k) >= 1 ==> EntryPaths(d0, l1[|l1'|], k) == 0
    ensures TreeFlags(d2, rc2, l1' + [e'])
  {
    hide RootPaths, RootOk, TableOk, EntryPaths, TreeCounted;
    var i := |l1'|;
    if l1[i].host != 0 { TableOnce(d0, l1, i); }
    forall x | 0 <= x < i && l1'[x].host != 0
      ensures l1'[x].host < |rc2| && rc2[l1'[x].host] == rc[l1'[x].host]
      ensures Table(d2, l1'[x].host) == Table(d, l1'[x].host) && FlagsRight(rc2, Table(d, l1'[x].host))
    {
      assert l1[..i][x].host == l1'[x].host == l1[x].host;
      StillCounted(d0, d, l1, i, x, rc, rc2, addend);
    }
    assert (l1' + [e'])[i] == e' && [e'][0] == e';
    assert SameHosts([l1[i]], [e']);
    assert [l1[i]][0].host == l1[i].host;
  }

  /** The clusters under an earlier entry keep their counts. */
  lemma StillCounted(d0: Disk, d: Disk, l1: seq<Entry>, i: nat, x: nat, rc: seq<nat>, rc2: seq<nat>, addend: int)
    requires x < i < |l1| && l1[x].host != 0 && FlagsOnly(d0, d) && |rc2| == |rc|
    requires l1[x].host < |rc| && FlagsRight(rc, Table(d, l1[x].host))
    requires forall k: nat :: RootPaths(d0, l1[..i], k) >= 1 ==> EntryPaths(d0, l1[i], k) == 0
    requires forall k: nat :: k < |rc| ==> rc2[k] == rc[k] + Scaled(addend, EntryPaths(d0, l1[i], k))
    ensures rc2[l1[x].host] == rc[l1[x].host]
    ensures FlagsRight(rc2, Table(d, l1[x].host))
  {
    hide RootPaths;
    var h := l1[x].host;
    RootPathsAt(d0, l1[..i], x, h);
    assert EntryPaths(d0, l1[..i][x], h) >= 1;
    var t0, t := Table(d0, h), Table(d, h);
    forall j | 0 <= j < |t| && t[j].host != 0
      ensures rc2[t[j].host] == rc[t[j].host]
    {
      RootPathsAt(d0, l1[..i], x, t[j].host);
      TablePathsAt(t0, j, t[j].host);
    }
  }

  /** What the pass may assume about the table of an entry. */
  lemma EntryFacts(d: Disk, rc: seq<nat>, e: Entry, addend: int)
    requires OneEntry(d, e) && e != Unused && |rc| == |d| && addend in {-1, 0, 1}
    requires forall k: nat :: k < |rc| ==>
               0 <= rc[k] + Scaled(addend, EntryPaths(d, e, k)) <= MAX_REFCOUNT && rc[k] <= MAX_REFCOUNT
    ensures e.host != 0 && d[e.host].L2? && Table(d, e.host) == d[e.host].entries
    ensures forall j :: 0 <= j < |d[e.host].entries| ==>
              d[e.host].entries[j].host < |d| && (d[e.host].entries[j].host == 0 ==> d[e.host].entries[j] == Unused)
    ensures forall k: nat :: TablePaths(d[e.host].entries, k) <= 1
    ensures forall k: nat :: k < |rc| ==> 0 <= rc[k] + Scaled(addend, TablePaths(d[e.host].entries, k)) <= MAX_REFCOUNT
    ensures TablePaths(d[e.host].entries, e.host) == 0 && 0 <= rc[e.host] + addend <= MAX_REFCOUNT
  {
    hide TablePaths;
    var t := d[e.host].entries;
    forall j | 0 <= j < |t|
      ensures t[j].host < |d| && (t[j].host == 0 ==> t[j] == Unused)
    {
      assert EntryOk(d, t[j]);
    }
    assert EntryPaths(d, e, e.host) == 1 + TablePaths(t, e.host);
    forall k: nat
      ensures TablePaths(t, k) <= EntryPaths(d, e, k) <= 1
    {
    }
  }

  /** The entry and its table after both were counted. */
  lemma EntryDone(d: Disk, rc: seq<nat>, e: Entry, addend: int, t': seq<Entry>, rc1: seq<nat>, d': Disk, rc': seq<nat>,
      e': Entry)
    requires OneEntry(d, e) && e != Unused && e.host != 0 && addend in {-1, 0, 1} && d[e.host].L2?
    requires TablePaths(d[e.host].entries, e.host) == 0
    requires Counted(rc, rc1, d[e.host].entries, addend) && FlagsRight(rc1, t') && SameHosts(d[e.host].entries, t')
    requires SameOutside(d, d', {e.host}) && d'[e.host] == L2(t')
    requires |rc'| == |rc1| && forall k: nat :: k < |rc1| ==> rc'[k] == rc1[k] + Scaled(addend, Refs(e, k))
    requires e'.host == e.host < |rc'| && (e'.copied <==> rc'[e.host] == 1)
    ensures EntryPassed(d, rc, e, addend, d', rc', e')
  {
    hide TablePaths, TableOk;
    forall k: nat | k < |rc|
      ensures rc'[k] == rc[k] + Scaled(addend, EntryPaths(d, e, k))
    {
      assert EntryPaths(d, e, k) <= 1;
    }
    forall j | 0 <= j < |t'| && t'[j].host != 0
      ensures t'[j].host < |rc'| && (t'[j].copied <==> rc'[t'[j].host] == 1)
    {
      if t'[j].host == e.host { TablePathsAt(d[e.host].entries, j, e.host); }
    }
  }
}
