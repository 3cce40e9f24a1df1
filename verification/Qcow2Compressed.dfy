/**
  Space for compressed clusters in a qcow2 image: byte ranges packed into clusters that are
  counted once per range, and the descriptors that name them.
 */
module Qcow2Compressed {
  import opened Arith
  import opened Qcow2Format
  import opened Qcow2Store

  const SECTOR: pos := 512

  /** The range [o, o + n) has a byte in cluster k. */
  predicate Overlaps(k: nat, o: nat, n: pos) {
    Div(o, CLUSTER_BYTES) <= k <= Div(o + n - 1, CLUSTER_BYTES)
  }

  /** The counts have gone up by one in exactly the clusters that the range overlaps. */
  ghost predicate CountedIn(rc: seq<nat>, rc': seq<nat>, o: nat, n: pos) {
    && |rc'| == |rc| && Div(o + n - 1, CLUSTER_BYTES) < |rc|
    && forall k: nat :: k < |rc| ==> rc'[k] == rc[k] + if Overlaps(k, o, n) then 1 else 0
  }

  /** A count that update_cluster_refcount was asked to raise; it refuses to pass the largest. */
  function Raised(c: nat): nat { if c < MAX_REFCOUNT then c + 1 else c }

  /** The counts were raised in exactly the clusters that the range overlaps. */
  ghost predicate RaisedIn(rc: seq<nat>, rc': seq<nat>, o: nat, n: pos) {
    && |rc'| == |rc| && Div(o + n - 1, CLUSTER_BYTES) < |rc|
    && forall k: nat :: k < |rc| ==> rc'[k] == if Overlaps(k, o, n) then Raised(rc[k]) else rc[k]
  }

  // ----- where a range ends

  lemma FitsHere(o: nat, n: pos)
    requires Mod(o, CLUSTER_BYTES) + n <= CLUSTER_BYTES
    ensures Div(o + n - 1, CLUSTER_BYTES) == Div(o, CLUSTER_BYTES)
    ensures Mod(o, CLUSTER_BYTES) + n < CLUSTER_BYTES ==>
              Div(o + n, CLUSTER_BYTES) == Div(o, CLUSTER_BYTES) &&
              Mod(o + n, CLUSTER_BYTES) == Mod(o, CLUSTER_BYTES) + n
  {
    DivModAdd(o, n - 1, CLUSTER_BYTES);
    DivModAdd(o, n, CLUSTER_BYTES);
  }

  lemma SpillsOver(o: nat, n: pos)
    requires CLUSTER_BYTES < Mod(o, CLUSTER_BYTES) + n < 2 * CLUSTER_BYTES
    ensures Div(o + n - 1, CLUSTER_BYTES) == Div(o + n, CLUSTER_BYTES) == Div(o, CLUSTER_BYTES) + 1
    ensures Mod(o + n, CLUSTER_BYTES) == Mod(o, CLUSTER_BYTES) + n - CLUSTER_BYTES
  {
    DivModAdd(o, n - 1, CLUSTER_BYTES);
    DivModAdd(o, n, CLUSTER_BYTES);
    var r := Mod(o, CLUSTER_BYTES) + n;
    assert Div(r - 1, CLUSTER_BYTES) == 1 + Div(r - 1 - CLUSTER_BYTES, CLUSTER_BYTES);
    assert Div(r, CLUSTER_BYTES) == 1 + Div(r - CLUSTER_BYTES, CLUSTER_BYTES);
  }

  lemma ClusterStart(k: nat)
    ensures Div(k * CLUSTER_BYTES, CLUSTER_BYTES) == k && Mod(k * CLUSTER_BYTES, CLUSTER_BYTES) == 0
    ensures k > 0 ==> k * CLUSTER_BYTES > 0
  {
    DivShift(k * CLUSTER_BYTES, k, CLUSTER_BYTES);
    if k > 0 { ProductAbove(k, CLUSTER_BYTES); }
  }

  // ----- ranges that have been handed out

  datatype Range = Range(o: nat, n: pos)

  predicate Apart(r: Range, s: Range) { r.o + r.n <= s.o || s.o + s.n <= r.o }

  /** The range lies in counted clusters, and in the cluster being filled it lies before the free part. */
  ghost predicate Held(r: Range, rc: seq<nat>, fbo: nat) {
    && (forall k: nat :: Overlaps(k, r.o, r.n) ==> k < |rc| && rc[k] > 0)
    && (fbo != 0 && Overlaps(Div(fbo, CLUSTER_BYTES), r.o, r.n) ==> r.o + r.n <= fbo)
  }

  /** Ranges that overlap share a cluster. */
  lemma SharedCluster(r: Range, s: Range) returns (k: nat)
    requires !Apart(r, s)
    ensures Overlaps(k, r.o, r.n) && Overlaps(k, s.o, s.n)
    ensures k == Div(if r.o < s.o then s.o else r.o, CLUSTER_BYTES)
  {
    var x := if r.o < s.o then s.o else r.o;
    k := Div(x, CLUSTER_BYTES);
    DivMono(r.o, x, CLUSTER_BYTES);
    DivMono(s.o, x, CLUSTER_BYTES);
    DivMono(x, r.o + r.n - 1, CLUSTER_BYTES);
    DivMono(x, s.o + s.n - 1, CLUSTER_BYTES);
  }

  /** A range taken from the free part of the cluster being filled, or from clusters not counted before. */
  lemma NewApart(r: Range, s: Range, rc: seq<nat>, fbo: nat)
    requires Held(r, rc, fbo)
    requires forall k: nat :: Overlaps(k, s.o, s.n) && k < |rc| && rc[k] > 0 ==>
               fbo != 0 && k == Div(fbo, CLUSTER_BYTES) && fbo <= s.o
    ensures Apart(r, s)
  {
    if !Apart(r, s) {
      var k := SharedCluster(r, s);
    }
  }

  /** The free part, if any, is the end of a cluster of the file, and does not begin it. */
  ghost predicate FreePart(rc: seq<nat>, fbo: nat) {
    fbo != 0 ==> Div(fbo, CLUSTER_BYTES) < |rc| && Mod(fbo, CLUSTER_BYTES) > 0
  }

  /**
    A range was taken: it is counted, its clusters were not counted before unless it continues
    the one being filled, and what is left free is right behind it.
   */
  ghost predicate Took(rc: seq<nat>, rc': seq<nat>, fbo: nat, fbo': nat, s: Range) {
    && RaisedIn(rc, rc', s.o, s.n) && FreePart(rc', fbo')
    && (forall k: nat :: Overlaps(k, s.o, s.n) && k < |rc| && rc[k] > 0 ==>
        fbo != 0 && k == Div(fbo, CLUSTER_BYTES) && fbo <= s.o)
    && (fbo' != 0 ==> fbo' == s.o + s.n && Overlaps(Div(fbo', CLUSTER_BYTES), s.o, s.n))
  }

  /** At the start of a new cluster. */
  lemma TookFresh(rc: seq<nat>, fbo: nat, k: nat, o: nat, size: pos)
    requires k < |rc| && rc[k] == 0 && o > 0 && Div(o, CLUSTER_BYTES) == k && Mod(o, CLUSTER_BYTES) == 0
    requires size <= CLUSTER_BYTES
    ensures Took(rc, rc[k := 1], fbo, if size == CLUSTER_BYTES then 0 else o + size, Range(o, size))
  {
    hide Div, Mod;
    FitsHere(o, size);
  }

  /** In the rest of the cluster being filled. */
  lemma TookHere(rc: seq<nat>, fbo: nat, size: pos)
    requires fbo != 0 && FreePart(rc, fbo) && Mod(fbo, CLUSTER_BYTES) + size <= CLUSTER_BYTES
    ensures var c := Div(fbo, CLUSTER_BYTES);
            Took(rc, rc[c := Raised(rc[c])], fbo,
                 if Mod(fbo, CLUSTER_BYTES) + size == CLUSTER_BYTES then 0 else fbo + size, Range(fbo, size))
  {
    hide Div, Mod;
    FitsHere(fbo, size);
  }

  /** Across the end of the cluster being filled, into a new one behind it. */
  lemma TookSpill(rc: seq<nat>, fbo: nat, size: pos)
    requires fbo != 0 && FreePart(rc, fbo) && size <= CLUSTER_BYTES < Mod(fbo, CLUSTER_BYTES) + size
    requires Div(fbo, CLUSTER_BYTES) + 1 < |rc| && rc[Div(fbo, CLUSTER_BYTES) + 1] == 0
    ensures var c := Div(fbo, CLUSTER_BYTES);
            Took(rc, rc[c + 1 := 1][c := Raised(rc[c])], fbo, fbo + size, Range(fbo, size))
  {
    hide Div, Mod;
    SpillsOver(fbo, size);
  }

  /** Nothing handed out has been freed. */
  ghost predicate AllHeld(rs: set<Range>, rc: seq<nat>, fbo: nat) {
    && (fbo != 0 ==> Div(fbo, CLUSTER_BYTES) < |rc| && rc[Div(fbo, CLUSTER_BYTES)] > 0)
    && forall r :: r in rs ==> Held(r, rc, fbo)
  }

  lemma HeldAfter(rs: set<Range>, rc: seq<nat>, rc': seq<nat>, fbo: nat, fbo': nat, s: Range)
    requires AllHeld(rs, rc, fbo) && Took(rc, rc', fbo, fbo', s)
    ensures AllHeld(rs + {s}, rc', fbo') && forall r :: r in rs ==> Apart(r, s)
  {
    hide Div, Mod;
    forall r | r in rs
      ensures Apart(r, s) && Held(r, rc', fbo')
    {
      NewApart(r, s, rc, fbo);
    }
  }

  /** A run of clusters as a range. */
  lemma WholeClusters(first: nat, n: pos)
    ensures n * CLUSTER_BYTES > 0
    ensures forall k: nat :: Overlaps(k, first * CLUSTER_BYTES, n * CLUSTER_BYTES) <==> first <= k < first + n
  {
    hide Div, Mod;
    ProductAbove(n, CLUSTER_BYTES);
    ClusterStart(first);
    var last := (first + n - 1) * CLUSTER_BYTES;
    ClusterStart(first + n - 1);
    assert first * CLUSTER_BYTES + n * CLUSTER_BYTES - 1 == last + (CLUSTER_BYTES - 1);
    DivModAdd(last, CLUSTER_BYTES - 1, CLUSTER_BYTES);
    DivBelow(CLUSTER_BYTES - 1, 1, CLUSTER_BYTES);
  }

  /** Clusters not counted before, taken while a cluster is being filled. */
  lemma HeldBeside(rs: set<Range>, rc: seq<nat>, rc': seq<nat>, fbo: nat, first: nat, n: pos)
    requires AllHeld(rs, rc, fbo) && first + n <= |rc| == |rc'|
    requires forall k :: first <= k < first + n ==> rc[k] == 0
    requires forall k: nat :: k < |rc| ==> rc'[k] == rc[k] + Within(k, first, n)
    ensures n * CLUSTER_BYTES > 0
    ensures var s := Range(first * CLUSTER_BYTES, n * CLUSTER_BYTES);
            AllHeld(rs + {s}, rc', fbo) && forall r :: r in rs ==> Apart(r, s)
  {
    hide Div, Mod, Overlaps;
    WholeClusters(first, n);
    var s := Range(first * CLUSTER_BYTES, n * CLUSTER_BYTES);
    forall r | r in rs
      ensures Apart(r, s) && Held(r, rc', fbo)
    {
      NewApart(r, s, rc, fbo);
    }
  }

  class ByteAllocator {
    const st: Store
    var freeByteOffset: nat
    ghost var handedOut: set<Range>

    constructor (st: Store)
      requires st.Valid() && 0 < |st.disk| && st.Rc()[0] > 0
      ensures Valid() && this.st == st && handedOut == {} && freeByteOffset == 0
    {
      this.st, freeByteOffset, handedOut := st, 0, {};
    }

    ghost predicate Valid()
      reads this, st
    {
      st.Valid() && 0 < |st.disk| && st.Rc()[0] > 0 && FreePart(st.Rc(), freeByteOffset)
    }

    /** A cluster of its own for bytes. */
    method NewCluster() returns (ok: bool, offset: nat, ghost k: nat)
      requires st.Valid() && 0 < |st.disk| && st.Rc()[0] > 0
      modifies st
      ensures st.Valid() && SameButCounts(old(st.disk), st.disk) && st.exhausted == (old(st.exhausted) || !ok)
      ensures !ok ==> st.Rc() == old(st.Rc()) && !Room(old(st.Spare()), 1)
      ensures ok ==> k < |old(st.Rc())| && old(st.Rc())[k] == 0 && st.Rc() == old(st.Rc())[k := 1]
      ensures ok ==> offset > 0 && Div(offset, CLUSTER_BYTES) == k && Mod(offset, CLUSTER_BYTES) == 0
    {
      hide Div, Mod;
      var first;
      ok, first := st.AllocClusters(1);
      k, offset := first, first * CLUSTER_BYTES;
      if ok {
        ClusterStart(first);
        assert st.Rc()[first] == 1;
        assert st.Rc() == old(st.Rc())[first := 1];
      }
    }

    /** One more count for the cluster of a byte; that the largest count is not passed goes unnoticed. */
    method CountCluster(offset: nat)
      requires st.Valid() && Div(offset, CLUSTER_BYTES) < |st.disk|
      modifies st`disk, st`refcountBlockCache, st`refcountBlockCacheOffset, st`freeClusterIndex
      ensures st.Valid() && SameButCounts(old(st.disk), st.disk)
      ensures var c := Div(offset, CLUSTER_BYTES); st.Rc() == old(st.Rc())[c := Raised(old(st.Rc())[c])]
    {
      hide Div, Mod;
      var _ := st.UpdateClusterRefcount(Div(offset, CLUSTER_BYTES), 1);
    }

    /** Takes a range of bytes from the cluster being filled, or begins another one. */
    method AllocBytes(size: pos) returns (ok: bool, offset: nat)
      requires Valid() && size <= CLUSTER_BYTES
      modifies this, st
      ensures SameButCounts(old(st.disk), st.disk) && st.exhausted == (old(st.exhausted) || !ok)
      ensures ok ==> Valid() && RaisedIn(old(st.Rc()), st.Rc(), offset, size)
      ensures ok && (forall k :: 0 <= k < |old(st.Rc())| ==> old(st.Rc())[k] < MAX_REFCOUNT) ==>
                CountedIn(old(st.Rc()), st.Rc(), offset, size)
      ensures !ok ==> !Room(old(st.Spare()), 1)
      ensures var fbo := old(freeByteOffset);
              fbo != 0 && Mod(fbo, CLUSTER_BYTES) + size <= CLUSTER_BYTES ==> ok && offset == fbo
      ensures ok ==> freeByteOffset == if Mod(offset, CLUSTER_BYTES) + size == CLUSTER_BYTES then 0 else offset + size
      ensures ok ==> handedOut == old(handedOut) + {Range(offset, size)}
      ensures ok && AllHeld(old(handedOut), old(st.Rc()), old(freeByteOffset)) ==>
                AllHeld(handedOut, st.Rc(), freeByteOffset) &&
                forall r :: r in old(handedOut) ==> Apart(r, Range(offset, size))
    {
      hide Div, Mod, CountedIn, RaisedIn, Overlaps, AllHeld, SameButCounts, Room;
      ok, offset := Take(size);
      if ok {
        ghost var s := Range(offset, size);
        handedOut := handedOut + {s};
        if AllHeld(old(handedOut), old(st.Rc()), old(freeByteOffset)) {
          HeldAfter(old(handedOut), old(st.Rc()), st.Rc(), old(freeByteOffset), freeByteOffset, s);
        }
        CountsRise(old(st.Rc()), st.Rc(), offset, size);
      }
    }

    /** Takes whole clusters, past the ranges of bytes. */
    method TakeClusters(n: pos) returns (ok: bool, offset: nat)
      requires Valid()
      modifies this, st
      ensures SameButCounts(old(st.disk), st.disk) && st.exhausted == (old(st.exhausted) || !ok)
      ensures ok ==> Valid() && n * CLUSTER_BYTES > 0
      ensures ok ==> handedOut == old(handedOut) + {Range(offset, n * CLUSTER_BYTES)}
      ensures ok && AllHeld(old(handedOut), old(st.Rc()), old(freeByteOffset)) ==>
                AllHeld(handedOut, st.Rc(), freeByteOffset) &&
                forall r :: r in old(handedOut) ==> Apart(r, Range(offset, n * CLUSTER_BYTES))
    {
      hide Div, Mod, Overlaps, AllHeld, SameButCounts, Room, Spent;
      var first;
      ok, first := st.AllocClusters(n);
      offset := first * CLUSTER_BYTES;
      if ok {
        WholeClusters(first, n);
        ghost var s := Range(offset, n * CLUSTER_BYTES);
        handedOut := handedOut + {s};
        if AllHeld(old(handedOut), old(st.Rc()), old(freeByteOffset)) {
          HeldBeside(old(handedOut), old(st.Rc()), st.Rc(), freeByteOffset, first, n);
        }
      }
    }

    method Take(size: pos) returns (ok: bool, offset: nat)
      requires Valid() && size <= CLUSTER_BYTES
      modifies this`freeByteOffset, st
      ensures st.Valid() && SameButCounts(old(st.disk), st.disk) && st.exhausted == (old(st.exhausted) || !ok)
      ensures ok ==> Took(old(st.Rc()), st.Rc(), old(freeByteOffset), freeByteOffset, Range(offset, size))
      ensures var fbo := old(freeByteOffset);
              fbo != 0 && Mod(fbo, CLUSTER_BYTES) + size <= CLUSTER_BYTES ==> ok && offset == fbo
      ensures ok ==> freeByteOffset == if Mod(offset, CLUSTER_BYTES) + size == CLUSTER_BYTES then 0 else offset + size
      ensures !ok ==> !Room(old(st.Spare()), 1)
    {
      hide Div, Mod, Took, CountsOf, Room;
      ghost var rc, fbo := st.Rc(), freeByteOffset;
      ghost var k;
      ok, offset := true, 0;
      if freeByteOffset == 0 {
        ok, freeByteOffset, k := NewCluster();
        if !ok { return; }
      }
      var freeInCluster := CLUSTER_BYTES - Mod(freeByteOffset, CLUSTER_BYTES);
      if size > freeInCluster {
        ok, offset, k := NewCluster();
        if !ok { return; }
        if Div(freeByteOffset, CLUSTER_BYTES) + 1 == Div(offset, CLUSTER_BYTES) {
          offset := freeByteOffset;
          TookSpill(rc, fbo, size);
          CountCluster(offset);
          freeByteOffset := freeByteOffset + size;
          return;
        }
        freeByteOffset, freeInCluster := offset, CLUSTER_BYTES;
      }
      offset := freeByteOffset;
      freeByteOffset := if size == freeInCluster then 0 else freeByteOffset + size;
      if Mod(offset, CLUSTER_BYTES) != 0 {
        TookHere(rc, fbo, size);
        CountCluster(offset);
      } else {
        TookFresh(rc, fbo, k, offset, size);
      }
    }
  }

  lemma CountsRise(rc: seq<nat>, rc': seq<nat>, o: nat, n: pos)
    requires RaisedIn(rc, rc', o, n)
    ensures |rc'| == |rc| && forall k :: 0 <= k < |rc| ==> rc'[k] >= rc[k]
    ensures (forall k :: 0 <= k < |rc| ==> rc[k] < MAX_REFCOUNT) ==> CountedIn(rc, rc', o, n)
  {
  }

  // ----- runs

  datatype Request = Bytes(size: pos) | Clusters(n: pos)

  function SizeOf(r: Request): pos {
    if r.Bytes? then r.size else ProductAbove(r.n, CLUSTER_BYTES); r.n * CLUSTER_BYTES
  }

  ghost predicate AllApart(rs: seq<Range>) {
    forall i, j :: 0 <= i < j < |rs| ==> Apart(rs[i], rs[j])
  }

  /** Whatever bytes and clusters are asked for, in whatever order: no two of the ranges handed out overlap. */
  method AllocateAll(a: ByteAllocator, reqs: seq<Request>) returns (ok: bool, rs: seq<Range>)
    requires a.Valid() && AllHeld(a.handedOut, a.st.Rc(), a.freeByteOffset)
    requires forall i :: 0 <= i < |reqs| && reqs[i].Bytes? ==> reqs[i].size <= CLUSTER_BYTES
    modifies a, a.st
    ensures AllApart(rs) && forall r, i :: r in old(a.handedOut) && 0 <= i < |rs| ==> Apart(r, rs[i])
    ensures ok ==> |rs| == |reqs| && forall i :: 0 <= i < |rs| ==> rs[i].n == SizeOf(reqs[i])
    ensures !ok ==> |rs| < |reqs| && a.st.exhausted
  {
    hide AllHeld, SameButCounts, RaisedIn, CountedIn, FreePart, Div, Room;
    ok, rs := true, [];
    while |rs| < |reqs|
      invariant |rs| <= |reqs| && a.Valid() && AllHeld(a.handedOut, a.st.Rc(), a.freeByteOffset)
      invariant AllApart(rs) && forall r, i :: r in old(a.handedOut) && 0 <= i < |rs| ==> Apart(r, rs[i])
      invariant forall i :: 0 <= i < |rs| ==> rs[i].n == SizeOf(reqs[i])
      invariant a.handedOut == old(a.handedOut) + set i | 0 <= i < |rs| :: rs[i]
    {
      var req, offset := reqs[|rs|], 0;
      if req.Bytes? {
        ok, offset := a.AllocBytes(req.size);
      } else {
        ok, offset := a.TakeClusters(req.n);
      }
      if !ok { return; }
      rs := rs + [Range(offset, SizeOf(req))];
    }
  }

  // ----- descriptors

  const FLAG_COMPRESSED: nat := 62  // the bit QCOW_OFLAG_COMPRESSED

  /** Clusters of 2^bits bytes, as the format allows. */
  ghost predicate ClusterBits(bits: nat) { 9 <= bits <= 16 && CLUSTER_BYTES == Pow2(bits) }

  function CsizeShift(bits: nat): nat
    requires 9 <= bits <= 16
  {
    62 - (bits - 8)
  }

  /** Sectors that the range reaches beyond its first one. */
  function SectorSpan(o: nat, n: pos): nat {
    DivMono(o, o + n - 1, SECTOR);
    Div(o + n - 1, SECTOR) - Div(o, SECTOR)
  }

  /** The L2 entry of a compressed cluster: its offset, its sectors, and the flag, in disjoint bits. */
  function Pack(o: nat, n: pos, bits: nat): nat
    requires 9 <= bits <= 16
  {
    o + Pow2(FLAG_COMPRESSED) + SectorSpan(o, n) * Pow2(CsizeShift(bits))
  }

  function UnpackSectors(d: nat, bits: nat): nat
    requires 9 <= bits <= 16
  {
    Mod(Div(d, Pow2(CsizeShift(bits))), Pow2(bits - 8)) + 1
  }

  function UnpackOffset(d: nat, bits: nat): nat
    requires 9 <= bits <= 16
  {
    Mod(d, Pow2(CsizeShift(bits)))
  }

  lemma {:induction false} PowAdd(a: nat, b: nat)
    ensures Pow2(a + b) == Pow2(a) * Pow2(b)
    decreases a
  {
    if a > 0 {
      PowAdd(a - 1, b);
      assert 2 * (Pow2(a - 1) * Pow2(b)) == 2 * Pow2(a - 1) * Pow2(b);
    }
  }

  /** A compressed cluster of at most one cluster's size has a span that fits its field. */
  lemma SpanFits(o: nat, n: pos, bits: nat)
    requires 9 <= bits <= 16 && n <= Pow2(bits)
    ensures SectorSpan(o, n) < Pow2(bits - 8)
  {
    hide Pow2;
    PowNine(bits);
    var m := Pow2(bits - 9);
    DivModAdd(o, n - 1, SECTOR);
    assert Mod(o, SECTOR) + n - 1 < (m + 1) * SECTOR;
    DivBelow(Mod(o, SECTOR) + n - 1, m + 1, SECTOR);
  }

  lemma PowNine(bits: nat)
    requires 9 <= bits
    ensures Pow2(bits) == SECTOR * Pow2(bits - 9) && Pow2(bits - 8) == 2 * Pow2(bits - 9) && Pow2(bits - 9) >= 1
  {
    PowAdd(9, bits - 9);
    PowIs();
  }

  lemma PowIs()
    ensures Pow2(9) == 512
  {
    assert Pow2(3) == 8;
    assert Pow2(6) == 64;
  }

  lemma Below(x: nat, n: pos)
    requires x < n
    ensures Div(x, n) == 0 && Mod(x, n) == x
  {
  }

  lemma PairBelow(o: nat, c: nat, p: pos, q: pos)
    requires o < p && c < q
    ensures c * p >= 0 && o + c * p < q * p
  {
    assert (c + 1) * p <= q * p;
    assert (c + 1) * p == c * p + p;
  }

  /** Numbers o, c and 1 side by side, in places of size p and q. */
  lemma SideBySide(o: nat, c: nat, p: pos, q: pos)
    requires o < p && c < q
    ensures c * p >= 0 && q * p > 0
    ensures var d := o + c * p + q * p;
            Div(d, q * p) == 1 && Mod(d, q * p) == o + c * p && Div(o + c * p, p) == c && Mod(d, p) == o
  {
    hide Div, Mod;
    PairBelow(o, c, p, q);
    var low, r := o + c * p, q * p;
    DivShift(low + r, 1, r);
    Below(low, r);
    DivShift(low, c, p);
    Below(o, p);
    DivShift(low + r, q, p);
  }

  /** The descriptor has the offset in its low 70 - bits bits, the span above it, and bit 62 set. */
  lemma PackLayout(o: nat, n: pos, bits: nat)
    requires 9 <= bits <= 16 && n <= Pow2(bits) && o < Pow2(70 - bits)
    ensures var d := Pack(o, n, bits);
            && Div(d, Pow2(62)) == 1 && Mod(d, Pow2(70 - bits)) == o
            && Div(Mod(d, Pow2(62)), Pow2(70 - bits)) == SectorSpan(o, n)
  {
    hide Pow2, SectorSpan, Div, Mod;
    SpanFits(o, n, bits);
    PowAdd(bits - 8, 70 - bits);
    SideBySide(o, SectorSpan(o, n), Pow2(70 - bits), Pow2(bits - 8));
  }

  /** Decoding gives back the offset and the number of sectors that the range touches. */
  lemma PackDecodes(o: nat, n: pos, bits: nat)
    requires 9 <= bits <= 16 && n <= Pow2(bits) && o < Pow2(CsizeShift(bits))
    ensures UnpackOffset(Pack(o, n, bits), bits) == o
    ensures UnpackSectors(Pack(o, n, bits), bits) == SectorSpan(o, n) + 1
  {
    hide Pow2, SectorSpan;
    SpanFits(o, n, bits);
    var p, q, c := Pow2(CsizeShift(bits)), Pow2(bits - 8), SectorSpan(o, n);
    PowAdd(bits - 8, CsizeShift(bits));
    assert Pack(o, n, bits) == o + (c + q) * p;
    DivShift(o + (c + q) * p, c + q, p);
    DivShift(c + q, 1, q);
  }

  // ----- freeing

  lemma {:induction false} DivOfDiv(x: nat, m: pos)
    ensures SECTOR * m > 0 && Div(x, SECTOR * m) == Div(Div(x, SECTOR), m)
    decreases x
  {
    if x < SECTOR * m {
      DivBelow(x, m, SECTOR);
    } else {
      DivShift(x, m, SECTOR);
      DivOfDiv(x - SECTOR * m, m);
    }
  }

  /** Bytes of one sector are in one cluster. */
  lemma SameSector(x: nat, y: nat, bits: nat)
    requires ClusterBits(bits) && Div(x, SECTOR) == Div(y, SECTOR)
    ensures Div(x, CLUSTER_BYTES) == Div(y, CLUSTER_BYTES)
  {
    PowNine(bits);
    DivOfDiv(x, Pow2(bits - 9));
    DivOfDiv(y, Pow2(bits - 9));
  }

  /** Whole sectors around a range overlap the same clusters as the range. */
  lemma SameClusters(o: nat, n: pos, bits: nat)
    requires ClusterBits(bits)
    ensures var start, len := o - Mod(o, SECTOR), (SectorSpan(o, n) + 1) * SECTOR;
            && start >= 0 && len > 0 && Div(start, CLUSTER_BYTES) == Div(o, CLUSTER_BYTES)
            && Div(start + len - 1, CLUSTER_BYTES) == Div(o + n - 1, CLUSTER_BYTES)
  {
    hide ClusterBits;
    StartOf(o, SECTOR);
    SameSector(o - Mod(o, SECTOR), o, bits);
    var a, b := Div(o, SECTOR), Div(o + n - 1, SECTOR);
    DivModDef(o, SECTOR);
    DivMono(o, o + n - 1, SECTOR);
    var last := (b + 1) * SECTOR - 1;
    DivShift(last, b, SECTOR);
    SameSector(last, o + n - 1, bits);
  }

  /** Frees what the descriptor of a compressed cluster names: every count goes back to what it was. */
  method FreeAnyClusters(st: Store, d: nat, bits: nat, ghost o: nat, ghost n: pos, ghost rc: seq<nat>)
    requires st.Valid() && ClusterBits(bits) && n <= CLUSTER_BYTES && o < Pow2(CsizeShift(bits))
    requires d == Pack(o, n, bits)
    requires CountedIn(rc, st.Rc(), o, n)
    modifies st
    ensures st.Valid() && SameButCounts(old(st.disk), st.disk) && st.Rc() == rc
  {
    hide Pow2, Pack, Div, Mod, SameButCounts, SectorSpan;
    PackDecodes(o, n, bits);
    SameClusters(o, n, bits);
    var nb := UnpackSectors(d, bits);
    var offset := UnpackOffset(d, bits);
    var start := offset - Mod(offset, SECTOR);
    var first, last := Div(start, CLUSTER_BYTES), Div(start + nb * SECTOR - 1, CLUSTER_BYTES);
    DivMono(o, o + n - 1, CLUSTER_BYTES);
    st.UpdateRange(first, last + 1 - first, -1);
    assert st.Rc() == rc;
  }
}
