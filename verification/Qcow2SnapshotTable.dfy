/**
  The snapshot table of a qcow2 image, byte by byte: one 8-byte aligned record per snapshot,
  a 40-byte big-endian header followed by the id and the name.
 */
module Qcow2SnapshotTable {
  import opened Arith
  import opened Qcow2Format

  const HEADER_SIZE: nat := 40

  // ----- big-endian numbers

  function Limit(w: nat): nat { if w == 0 then 1 else 256 * Limit(w - 1) }

  function ToBe(v: nat, w: nat): (s: seq<byte>)
    ensures |s| == w
    decreases w
  {
    if w == 0 then [] else ToBe(v / 256, w - 1) + [v % 256]
  }

  function FromBe(s: seq<byte>): nat {
    if s == [] then 0 else FromBe(s[..|s| - 1]) * 256 + s[|s| - 1]
  }

  lemma {:induction false} BeRoundTrip(v: nat, w: nat)
    requires v < Limit(w)
    ensures FromBe(ToBe(v, w)) == v
    decreases w
  {
    if w > 0 {
      BeRoundTrip(v / 256, w - 1);
      assert ToBe(v, w)[..w - 1] == ToBe(v / 256, w - 1);
    }
  }

  /** The most significant byte comes first. */
  lemma {:induction false} BigEndian(b: byte, s: seq<byte>)
    ensures FromBe([b] + s) == b * Limit(|s|) + FromBe(s)
    decreases |s|
  {
    if s == [] {
      assert [b] + s == [b] && [b][..0] == [];
    } else {
      var front, last := s[..|s| - 1], s[|s| - 1];
      assert ([b] + s)[..|s|] == [b] + front && ([b] + s)[|s|] == last;
      BigEndian(b, front);
      assert b * Limit(|s|) == b * Limit(|s| - 1) * 256;
    }
  }

  lemma BytesInOrder()
    ensures ToBe(0x0102_0304, 4) == [1, 2, 3, 4] && Limit(4) == 0x1_0000_0000
  {
    assert ToBe(0x01, 1) == ToBe(0, 0) + [1];
    assert ToBe(0x0102, 2) == ToBe(0x01, 1) + [2];
    assert ToBe(0x01_0203, 3) == ToBe(0x0102, 2) + [3];
    assert Limit(2) == 0x1_0000;
  }

  // ----- records

  /** A snapshot the format can hold: every field fits its width and the strings are C strings. */
  ghost predicate Storable(sn: Snapshot) {
    && sn.l1Offset < Limit(8) && sn.l1Size < Limit(4) && sn.vmStateSize < Limit(4)
    && sn.dateSec < Limit(4) && sn.dateNsec < Limit(4) && sn.vmClockNsec < Limit(8)
    && |sn.id| < Limit(2) && |sn.name| < Limit(2) && CString(sn.id) && CString(sn.name)
  }

  ghost predicate CString(s: string) {
    forall i :: 0 <= i < |s| ==> 0 < s[i] as int < 256
  }

  function Chars(s: string): (b: seq<byte>)
    ensures |b| == |s|
  {
    seq(|s|, i requires 0 <= i < |s| => (s[i] as int) % 256)
  }

  function Text(b: seq<byte>): (s: string)
    ensures |s| == |b|
  {
    seq(|b|, i requires 0 <= i < |b| => b[i] as char)
  }

  lemma TextRoundTrip(s: string)
    requires CString(s)
    ensures Text(Chars(s)) == s
  {
  }

  function Header(sn: Snapshot): (h: seq<byte>)
    ensures |h| == HEADER_SIZE
  {
    ToBe(sn.l1Offset, 8) + ToBe(sn.l1Size, 4) + ToBe(|sn.id|, 2) + ToBe(|sn.name|, 2)
    + ToBe(sn.dateSec, 4) + ToBe(sn.dateNsec, 4) + ToBe(sn.vmClockNsec, 8) + ToBe(sn.vmStateSize, 4) + ToBe(0, 4)
  }

  /** Where each field of a record is. */
  lemma HeaderLayout(sn: Snapshot)
    ensures var h := Header(sn);
            && h[0..8] == ToBe(sn.l1Offset, 8) && h[8..12] == ToBe(sn.l1Size, 4)
            && h[12..14] == ToBe(|sn.id|, 2) && h[14..16] == ToBe(|sn.name|, 2)
            && h[16..20] == ToBe(sn.dateSec, 4) && h[20..24] == ToBe(sn.dateNsec, 4)
            && h[24..32] == ToBe(sn.vmClockNsec, 8) && h[32..36] == ToBe(sn.vmStateSize, 4)
  {
    hide ToBe;
  }

  lemma HeaderTail(sn: Snapshot)
    ensures Header(sn)[36..40] == ToBe(0, 4)
  {
    hide ToBe;
  }

  function Align8(x: nat): (r: nat)
    ensures r % 8 == 0 && x <= r < x + 8
  {
    (x + 7) / 8 * 8
  }

  function RecordSize(sn: Snapshot): nat { HEADER_SIZE + |sn.id| + |sn.name| }

  /** Where the table of sns ends when it starts at offset. */
  function TableEnd(sns: seq<Snapshot>, offset: nat): nat {
    if sns == [] then offset else Align8(TableEnd(sns[..|sns| - 1], offset)) + RecordSize(sns[|sns| - 1])
  }

  /** The bytes that the table takes, as the first pass of the writer computes them. */
  function TableSize(sns: seq<Snapshot>): nat { TableEnd(sns, 0) }

  /** The first pass of the writer: the size of the table. */
  method ComputeTableSize(sns: seq<Snapshot>) returns (size: nat)
    ensures size == TableSize(sns)
  {
    size := 0;
    var i := 0;
    while i < |sns|
      invariant i <= |sns| && size == TableEnd(sns[..i], 0)
    {
      assert sns[..i + 1][..i] == sns[..i];
      size := Align8(size) + HEADER_SIZE + |sns[i].id| + |sns[i].name|;
      i := i + 1;
    }
    assert sns[..i] == sns;
  }

  /** The clusters that the table takes. */
  function TableNeed(sns: seq<Snapshot>): nat { CeilDiv(TableSize(sns), CLUSTER_BYTES) }

  /** A record with this id and name; nothing else matters to the size of the table. */
  function Listed(id: string, name: string): Snapshot { Snapshot(0, 0, id, name, 0, 0, 0, 0) }

  lemma {:induction false} SameTableEnd(a: seq<Snapshot>, b: seq<Snapshot>)
    requires |a| == |b| && forall i :: 0 <= i < |a| ==> |a[i].id| == |b[i].id| && |a[i].name| == |b[i].name|
    ensures TableEnd(a, 0) == TableEnd(b, 0)
    decreases |a|
  {
    if a != [] { SameTableEnd(a[..|a| - 1], b[..|b| - 1]); }
  }

  lemma SameTableNeed(a: seq<Snapshot>, b: seq<Snapshot>)
    requires |a| == |b| && forall i :: 0 <= i < |a| ==> |a[i].id| == |b[i].id| && |a[i].name| == |b[i].name|
    ensures TableNeed(a) == TableNeed(b)
  {
    SameTableEnd(a, b);
  }
}
