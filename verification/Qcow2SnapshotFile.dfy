/**
  Writing the snapshot table of a qcow2 image into the bytes of the file, and reading it back.
 */
module Qcow2SnapshotFile {
  import opened Qcow2Format
  import opened Qcow2SnapshotTable

  /** The record of snapshot sn is in the bytes from o on. */
  ghost predicate RecordAt(b: seq<byte>, o: nat, sn: Snapshot) {
    var i := o + HEADER_SIZE;
    var n := i + |sn.id|;
    n + |sn.name| <= |b| && b[o..i] == Header(sn) && b[i..n] == Chars(sn.id) && b[n..n + |sn.name|] == Chars(sn.name)
  }

  /** The table of sns is in the bytes from start on. */
  ghost predicate Holds(b: seq<byte>, start: nat, sns: seq<Snapshot>) {
    sns == [] ||
    var before := sns[..|sns| - 1];
    Holds(b, start, before) && RecordAt(b, Align8(TableEnd(before, start)), sns[|sns| - 1])
  }

  lemma {:induction false} EndGrows(sns: seq<Snapshot>, start: nat)
    ensures start <= TableEnd(sns, start)
    decreases |sns|
  {
    if sns != [] { EndGrows(sns[..|sns| - 1], start); }
  }

  /** Where the records are does not depend on where the aligned table starts. */
  lemma {:induction false} EndShift(sns: seq<Snapshot>, start: nat)
    requires start % 8 == 0
    ensures TableEnd(sns, start) == start + TableSize(sns)
    decreases |sns|
  {
    hide Align8;
    if sns != [] {
      EndShift(sns[..|sns| - 1], start);
      AlignShift(TableEnd(sns[..|sns| - 1], 0), start);
    }
  }

  lemma AlignShift(x: nat, start: nat)
    requires start % 8 == 0
    ensures Align8(start + x) == start + Align8(x)
  {
  }

  lemma {:induction false} EndMono(sns: seq<Snapshot>, start: nat, i: nat)
    requires i <= |sns|
    ensures TableEnd(sns[..i], start) <= TableEnd(sns, start)
    decreases |sns| - i
  {
    if i < |sns| {
      assert sns[..i + 1][..i] == sns[..i];
      EndMono(sns, start, i + 1);
    } else {
      assert sns[..i] == sns;
    }
  }

  /** A record keeps while its bytes do. */
  lemma RecordStays(b: seq<byte>, b': seq<byte>, o: nat, sn: Snapshot)
    requires RecordAt(b, o, sn) && |b'| == |b| && forall k :: 0 <= k < o + RecordSize(sn) ==> b'[k] == b[k]
    ensures RecordAt(b', o, sn)
  {
    hide Header, Chars;
    var i := o + HEADER_SIZE;
    var n := i + |sn.id|;
    assert b'[o..i] == b[o..i];
    assert b'[i..n] == b[i..n];
    assert b'[n..n + |sn.name|] == b[n..n + |sn.name|];
  }

  lemma {:induction false} HoldsStays(b: seq<byte>, b': seq<byte>, start: nat, sns: seq<Snapshot>)
    requires Holds(b, start, sns) && |b'| == |b|
    requires forall k :: 0 <= k < TableEnd(sns, start) && k < |b| ==> b'[k] == b[k]
    ensures Holds(b', start, sns)
    decreases |sns|
  {
    hide RecordAt;
    if sns != [] {
      var before, last := sns[..|sns| - 1], sns[|sns| - 1];
      var o := Align8(TableEnd(before, start));
      HoldsStays(b, b', start, before);
      RecordFits(b, o, last);
      RecordStays(b, b', o, last);
    }
  }

  /** A table keeps when more bytes follow it. */
  lemma {:induction false} HoldsLonger(b: seq<byte>, b': seq<byte>, start: nat, sns: seq<Snapshot>)
    requires Holds(b, start, sns) && b <= b'
    ensures Holds(b', start, sns)
    decreases |sns|
  {
    hide RecordAt, Align8, TableEnd;
    if sns != [] {
      var before := sns[..|sns| - 1];
      HoldsLonger(b, b', start, before);
      RecordLonger(b, b', Align8(TableEnd(before, start)), sns[|sns| - 1]);
    }
  }

  lemma RecordLonger(b: seq<byte>, b': seq<byte>, o: nat, sn: Snapshot)
    requires RecordAt(b, o, sn) && b <= b'
    ensures RecordAt(b', o, sn)
  {
    hide Header, Chars;
    var i := o + HEADER_SIZE;
    var n := i + |sn.id|;
    assert b'[o..i] == b[o..i];
    assert b'[i..n] == b[i..n];
    assert b'[n..n + |sn.name|] == b[n..n + |sn.name|];
  }

  lemma RecordFits(b: seq<byte>, o: nat, sn: Snapshot)
    requires RecordAt(b, o, sn)
    ensures o + RecordSize(sn) <= |b|
  {
  }

  // ----- the writer

  /** bdrv_pwrite */
  method Pwrite(file: array<byte>, o: nat, data: seq<byte>)
    requires o + |data| <= file.Length
    modifies file
    ensures forall i :: 0 <= i < file.Length ==> file[i] == if o <= i < o + |data| then data[i - o] else old(file[i])
  {
    var k := 0;
    while k < |data|
      invariant k <= |data|
      invariant forall i :: 0 <= i < file.Length ==> file[i] == if o <= i < o + k then data[i - o] else old(file[i])
    {
      file[o + k] := data[k];
      k := k + 1;
    }
  }

  /** Writes one record: the header, the id, the name. */
  method WriteRecord(file: array<byte>, o: nat, sn: Snapshot)
    requires o + RecordSize(sn) <= file.Length
    modifies file
    ensures RecordAt(file[..], o, sn)
    ensures forall k :: 0 <= k < file.Length && !(o <= k < o + RecordSize(sn)) ==> file[k] == old(file[k])
  {
    hide Header, Chars;
    var n := o + HEADER_SIZE + |sn.id|;
    Pwrite(file, o, Header(sn));
    Pwrite(file, o + HEADER_SIZE, Chars(sn.id));
    Pwrite(file, n, Chars(sn.name));
    SliceIs(file[..], o, Header(sn));
    SliceIs(file[..], o + HEADER_SIZE, Chars(sn.id));
    SliceIs(file[..], n, Chars(sn.name));
  }

  lemma SliceIs(b: seq<byte>, o: nat, data: seq<byte>)
    requires o + |data| <= |b| && forall i :: o <= i < o + |data| ==> b[i] == data[i - o]
    ensures b[o..o + |data|] == data
  {
  }

  /** The second pass of the writer: stays within the size that the first pass computed. */
  method WriteTable(file: array<byte>, start: nat, sns: seq<Snapshot>)
    requires start % 8 == 0 && start + TableSize(sns) <= file.Length
    modifies file
    ensures Holds(file[..], start, sns)
    ensures forall k :: 0 <= k < file.Length && !(start <= k < start + TableSize(sns)) ==> file[k] == old(file[k])
  {
    hide RecordAt;
    EndShift(sns, start);
    var offset, i := start, 0;
    while i < |sns|
      invariant i <= |sns| && offset == TableEnd(sns[..i], start) && Holds(file[..], start, sns[..i])
      invariant forall k :: 0 <= k < file.Length && !(start <= k < start + TableSize(sns)) ==> file[k] == old(file[k])
    {
      assert sns[..i + 1][..i] == sns[..i] && sns[..i + 1][i] == sns[i];
      EndMono(sns, start, i + 1);
      EndGrows(sns[..i], start);
      ghost var b := file[..];
      offset := Align8(offset);
      WriteRecord(file, offset, sns[i]);
      HoldsStays(b, file[..], start, sns[..i]);
      offset := offset + RecordSize(sns[i]);
      i := i + 1;
    }
    assert sns[..i] == sns;
  }

  // ----- the reader

  datatype Fields = Fields(
    l1Offset: nat, l1Size: nat, idSize: nat, nameSize: nat,
    dateSec: nat, dateNsec: nat, vmClockNsec: nat, vmStateSize: nat, extraSize: nat)

  function ParseHeader(h: seq<byte>): Fields
    requires |h| == HEADER_SIZE
  {
    Fields(FromBe(h[0..8]), FromBe(h[8..12]), FromBe(h[12..14]), FromBe(h[14..16]),
           FromBe(h[16..20]), FromBe(h[20..24]), FromBe(h[24..32]), FromBe(h[32..36]), FromBe(h[36..40]))
  }

  lemma HeaderParses(sn: Snapshot)
    requires Storable(sn)
    ensures ParseHeader(Header(sn)) == Fields(sn.l1Offset, sn.l1Size, |sn.id|, |sn.name|,
                                              sn.dateSec, sn.dateNsec, sn.vmClockNsec, sn.vmStateSize, 0)
  {
    hide ToBe, FromBe, Limit, Header;
    HeaderLayout(sn);
    HeaderTail(sn);
    BeRoundTrip(sn.l1Offset, 8);
    BeRoundTrip(sn.l1Size, 4);
    BeRoundTrip(|sn.id|, 2);
    BeRoundTrip(|sn.name|, 2);
    BeRoundTrip(sn.dateSec, 4);
    BeRoundTrip(sn.dateNsec, 4);
    BeRoundTrip(sn.vmClockNsec, 8);
    BeRoundTrip(sn.vmStateSize, 4);
    LimitPositive(4);
    BeRoundTrip(0, 4);
  }

  lemma LimitPositive(w: nat)
    ensures 0 < Limit(w)
  {
  }

  datatype ReadResult = Failed | Read(sn: Snapshot, next: nat)

  /** Reads the record at o, with any extra data after its header skipped. */
  method ReadRecord(file: array<byte>, o: nat) returns (r: ReadResult)
    ensures forall sn :: Storable(sn) && RecordAt(file[..], o, sn) ==> r == Read(sn, o + RecordSize(sn))
    ensures r.Read? ==> o + HEADER_SIZE <= r.next <= file.Length
  {
    hide Header, Chars, Text, ParseHeader, ToBe, FromBe;
    if o + HEADER_SIZE > file.Length { return Failed; }
    var h := ParseHeader(file[o..o + HEADER_SIZE]);
    forall sn | Storable(sn) && RecordAt(file[..], o, sn)
      ensures h == Fields(sn.l1Offset, sn.l1Size, |sn.id|, |sn.name|, sn.dateSec, sn.dateNsec, sn.vmClockNsec,
                sn.vmStateSize, 0)
    {
      SameRecord(file[..], o, sn);
    }
    var i := o + HEADER_SIZE + h.extraSize;
    var n := i + h.idSize;
    if n > file.Length { return Failed; }
    var id := Text(file[i..n]);
    if n + h.nameSize > file.Length { return Failed; }
    var name := Text(file[n..n + h.nameSize]);
    r := Read(Snapshot(h.l1Offset, h.l1Size, id, name, h.vmStateSize, h.dateSec, h.dateNsec, h.vmClockNsec),
        n + h.nameSize);
    forall sn | Storable(sn) && RecordAt(file[..], o, sn)
      ensures r == Read(sn, o + RecordSize(sn))
    {
      SameRecord(file[..], o, sn);
    }
  }

  lemma SameRecord(b: seq<byte>, o: nat, sn: Snapshot)
    requires Storable(sn) && RecordAt(b, o, sn)
    ensures ParseHeader(b[o..o + HEADER_SIZE]) == Fields(sn.l1Offset, sn.l1Size, |sn.id|, |sn.name|,
                                                        sn.dateSec, sn.dateNsec, sn.vmClockNsec, sn.vmStateSize, 0)
    ensures var i := o + HEADER_SIZE; var n := i + |sn.id|;
            Text(b[i..n]) == sn.id && Text(b[n..n + |sn.name|]) == sn.name
  {
    hide Header, Chars, Text, ParseHeader;
    HeaderParses(sn);
    TextRoundTrip(sn.id);
    TextRoundTrip(sn.name);
  }

  /** The bytes hold the table of these snapshots, all of which the format can hold. */
  ghost predicate Written(b: seq<byte>, start: nat, sns: seq<Snapshot>) {
    Holds(b, start, sns) && forall k :: 0 <= k < |sns| ==> Storable(sns[k])
  }

  /** Reads a table of nb records; what the writer wrote comes back, with the size it computed. */
  method ReadTable(file: array<byte>, start: nat, nb: nat, ghost sns: seq<Snapshot>)
      returns (ok: bool, r: seq<Snapshot>, size: nat)
    ensures start % 8 == 0 && |sns| == nb && Written(file[..], start, sns) ==> ok && r == sns && size == TableSize(sns)
    ensures ok ==> |r| == nb
  {
    hide RecordAt, Storable, Holds;
    ghost var written := start % 8 == 0 && |sns| == nb && Written(file[..], start, sns);
    var offset, i := start, 0;
    r := [];
    while i < nb
      invariant i <= nb && |r| == i && start <= offset
      invariant written ==> r == sns[..i] && offset == TableEnd(sns[..i], start)
    {
      if written {
        NextRecord(file[..], start, sns, i);
        assert sns[..i + 1] == sns[..i] + [sns[i]];
      }
      offset := Align8(offset);
      var one := ReadRecord(file, offset);
      if one.Failed? { return false, [], 0; }
      r, offset := r + [one.sn], one.next;
      i := i + 1;
    }
    if written {
      assert sns[..i] == sns;
      EndShift(sns, start);
    }
    ok, size := true, offset - start;
  }

  lemma NextRecord(b: seq<byte>, start: nat, sns: seq<Snapshot>, i: nat)
    requires Written(b, start, sns) && i < |sns|
    ensures Storable(sns[i]) && RecordAt(b, Align8(TableEnd(sns[..i], start)), sns[i])
    ensures TableEnd(sns[..i + 1], start) == Align8(TableEnd(sns[..i], start)) + RecordSize(sns[i])
  {
    hide RecordAt;
    HoldsPrefix(b, start, sns, i + 1);
    assert sns[..i + 1][..i] == sns[..i] && sns[..i + 1][i] == sns[i];
  }

  lemma {:induction false} HoldsPrefix(b: seq<byte>, start: nat, sns: seq<Snapshot>, i: nat)
    requires Holds(b, start, sns) && i <= |sns|
    ensures Holds(b, start, sns[..i])
    decreases |sns|
  {
    hide RecordAt;
    if i < |sns| {
      HoldsPrefix(b, start, sns[..|sns| - 1], i);
      assert sns[..|sns| - 1][..i] == sns[..i];
    } else {
      assert sns[..i] == sns;
    }
  }

  /** Writing the table and reading it back. */
  method RoundTrip(file: array<byte>, start: nat, sns: seq<Snapshot>) returns (r: seq<Snapshot>, size: nat)
    requires start % 8 == 0 && start + TableSize(sns) <= file.Length
    requires forall k :: 0 <= k < |sns| ==> Storable(sns[k])
    modifies file
    ensures r == sns && size == TableSize(sns)
  {
    WriteTable(file, start, sns);
    var ok;
    ok, r, size := ReadTable(file, start, |sns|, sns);
  }
}
