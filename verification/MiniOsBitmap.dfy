/**
  The page allocation bitmap of Mini-OS: one bit per page, set when the page is allocated.
  A word is a number below 2^64; runs of pages are marked with masks, a word at a time.
 */
module MiniOsBitmap {
  import opened Arith

  const WORD_BITS: nat := 64  // PAGES_PER_MAPWORD

  const ONES: nat := 0xffff_ffff_ffff_ffff

  /** The bit at offset k of a word. */
  predicate Bit(w: nat, k: nat) {
    if k == 0 then w % 2 == 1 else Bit(w / 2, k - 1)
  }

  // ----- the operators of the source on words

  function Or(a: nat, b: nat): nat
    decreases a + b
  {
    if a == 0 && b == 0 then 0 else 2 * Or(a / 2, b / 2) + if a % 2 == 1 || b % 2 == 1 then 1 else 0
  }

  function And(a: nat, b: nat): nat
    decreases a + b
  {
    if a == 0 && b == 0 then 0 else 2 * And(a / 2, b / 2) + if a % 2 == 1 && b % 2 == 1 then 1 else 0
  }

  /** (1UL << k) - 1. */
  function Below(k: nat): nat { Pow2(k) - 1 }

  /** -(1UL << k), which wraps around at 2^64. */
  function FromOn(k: nat): nat
    requires k < WORD_BITS
  {
    PowMono(k, WORD_BITS);
    Pow2(WORD_BITS) - Pow2(k)
  }

  // ----- their bits

  lemma {:induction false} OrBit(a: nat, b: nat, k: nat)
    ensures Bit(Or(a, b), k) <==> Bit(a, k) || Bit(b, k)
    decreases k
  {
    if k > 0 {
      OrBit(a / 2, b / 2, k - 1);
      if a == 0 && b == 0 { ZeroBit(k); } else { assert Or(a, b) / 2 == Or(a / 2, b / 2); }
    }
  }

  lemma {:induction false} AndBit(a: nat, b: nat, k: nat)
    ensures Bit(And(a, b), k) <==> Bit(a, k) && Bit(b, k)
    decreases k
  {
    if k > 0 {
      AndBit(a / 2, b / 2, k - 1);
      if a == 0 && b == 0 { ZeroBit(k); } else { assert And(a, b) / 2 == And(a / 2, b / 2); }
    }
  }

  lemma {:induction false} ZeroBit(k: nat)
    ensures !Bit(0, k)
  {
    if k > 0 { ZeroBit(k - 1); }
  }

  /** The difference of two powers has the bits between them. */
  lemma {:induction false} PowersBits(m: nat, n: nat, k: nat)
    requires n <= m
    ensures Pow2(n) <= Pow2(m) && (Bit(Pow2(m) - Pow2(n), k) <==> n <= k < m)
    decreases m
  {
    PowMono(n, m);
    if n == m {
      ZeroBit(k);
    } else if n == 0 {
      assert (Pow2(m) - 1) / 2 == Pow2(m - 1) - 1 && (Pow2(m) - 1) % 2 == 1;
      if k > 0 { PowersBits(m - 1, 0, k - 1); }
    } else {
      PowMono(n - 1, m - 1);
      assert (Pow2(m) - Pow2(n)) / 2 == Pow2(m - 1) - Pow2(n - 1) && (Pow2(m) - Pow2(n)) % 2 == 0;
      if k > 0 { PowersBits(m - 1, n - 1, k - 1); }
    }
  }

  lemma PowEight(k: nat)
    ensures Pow2(k + 8) == 256 * Pow2(k)
  {
    assert Pow2(k + 2) == 4 * Pow2(k);
    assert Pow2(k + 4) == 16 * Pow2(k);
    assert Pow2(k + 6) == 64 * Pow2(k);
  }

  lemma PowZero()
    ensures Pow2(0) == 1
  {
  }

  lemma OnesIs()
    ensures ONES == Pow2(WORD_BITS) - 1
  {
    hide Pow2;
    PowZero();
    PowEight(0); PowEight(8); PowEight(16); PowEight(24);
    PowEight(32); PowEight(40); PowEight(48); PowEight(56);
  }

  /** The hint in the source: (1 << n) - 1 has the bits below n, -(1 << n) those from n on. */
  lemma MaskBits(n: nat, k: nat)
    requires n < WORD_BITS && k < WORD_BITS
    ensures Bit(Below(n), k) <==> k < n
    ensures Bit(FromOn(n), k) <==> n <= k
    ensures Bit(ONES, k) && !Bit(0, k)
  {
    PowersBits(n, 0, k);
    PowersBits(WORD_BITS, n, k);
    PowersBits(WORD_BITS, 0, k);
    OnesIs();
    ZeroBit(k);
  }

  // ----- words stay words

  lemma {:induction false} Bounds(a: nat, b: nat, m: nat)
    requires a < Pow2(m) && b < Pow2(m)
    ensures Or(a, b) < Pow2(m) && And(a, b) < Pow2(m)
    decreases m
  {
    if m > 0 && !(a == 0 && b == 0) { Bounds(a / 2, b / 2, m - 1); }
  }

  class Bitmap {
    const words: array<nat>

    /** All pages allocated. */
    constructor (n: nat)
      ensures fresh(words) && words.Length == n && Valid()
      ensures forall p: nat :: Has(p) ==> Allocated(p)
    {
      words := new nat[n](_ => ONES);
      new;
      OnesIs();
      forall p: nat | Has(p)
        ensures Allocated(p)
      {
        MaskBits(0, p % WORD_BITS);
      }
    }

    ghost predicate Valid()
      reads words
    {
      forall i :: 0 <= i < words.Length ==> words[i] < Pow2(WORD_BITS)
    }

    /** Page p has a bit in the map. */
    predicate Has(p: nat) { p / WORD_BITS < words.Length }

    /** Page p is marked allocated. */
    predicate Allocated(p: nat)
      requires Has(p)
      reads words
    {
      Bit(words[p / WORD_BITS], p % WORD_BITS)
    }

    /** Marks the nr pages from first on as allocated, a word at a time. */
    method MapAlloc(first: nat, nr: nat)
      requires Valid() && Has(first + nr)
      modifies words
      ensures Valid()
      ensures forall p: nat :: Has(p) ==> (Allocated(p) <==> old(Allocated(p)) || first <= p < first + nr)
    {
      hide Bit, Or, And, Below, FromOn, Pow2;
      var currIdx, startOff := first / WORD_BITS, first % WORD_BITS;
      var endIdx, endOff := (first + nr) / WORD_BITS, (first + nr) % WORD_BITS;
      WordMasks(startOff, endOff);
      if currIdx == endIdx {
        Bounds(Below(endOff), FromOn(startOff), WORD_BITS);
        Bounds(words[currIdx], And(Below(endOff), FromOn(startOff)), WORD_BITS);
        words[currIdx] := Or(words[currIdx], And(Below(endOff), FromOn(startOff)));
      } else {
        Bounds(words[currIdx], FromOn(startOff), WORD_BITS);
        words[currIdx] := Or(words[currIdx], FromOn(startOff));
        currIdx := currIdx + 1;
        while currIdx < endIdx
          invariant first / WORD_BITS < currIdx <= endIdx && Valid()
          invariant forall w :: 0 <= w < words.Length ==>
                      words[w] == if w == first / WORD_BITS then Or(old(words[w]), FromOn(startOff))
                                  else if first / WORD_BITS < w < currIdx then ONES else old(words[w])
        {
          words[currIdx] := ONES;
          currIdx := currIdx + 1;
        }
        Bounds(words[currIdx], Below(endOff), WORD_BITS);
        words[currIdx] := Or(words[currIdx], Below(endOff));
      }
      forall p: nat | Has(p)
        ensures Allocated(p) <==> old(Allocated(p)) || first <= p < first + nr
      {
        MarkedBit(old(words[p / WORD_BITS]), words[p / WORD_BITS], first, first + nr, p);
      }
    }

    /** Marks the nr pages from first on as free, a word at a time. */
    method MapFree(first: nat, nr: nat)
      requires Valid() && Has(first + nr)
      modifies words
      ensures Valid()
      ensures forall p: nat :: Has(p) ==> (Allocated(p) <==> old(Allocated(p)) && !(first <= p < first + nr))
    {
      hide Bit, Or, And, Below, FromOn, Pow2;
      var currIdx, startOff := first / WORD_BITS, first % WORD_BITS;
      var endIdx, endOff := (first + nr) / WORD_BITS, (first + nr) % WORD_BITS;
      WordMasks(endOff, startOff);
      if currIdx == endIdx {
        Bounds(FromOn(endOff), Below(startOff), WORD_BITS);
        Bounds(words[currIdx], Or(FromOn(endOff), Below(startOff)), WORD_BITS);
        words[currIdx] := And(words[currIdx], Or(FromOn(endOff), Below(startOff)));
      } else {
        Bounds(words[currIdx], Below(startOff), WORD_BITS);
        words[currIdx] := And(words[currIdx], Below(startOff));
        currIdx := currIdx + 1;
        while currIdx != endIdx
          invariant first / WORD_BITS < currIdx <= endIdx && Valid()
          invariant forall w :: 0 <= w < words.Length ==>
                      words[w] == if w == first / WORD_BITS then And(old(words[w]), Below(startOff))
                                  else if first / WORD_BITS < w < currIdx then 0 else old(words[w])
        {
          words[currIdx] := 0;
          currIdx := currIdx + 1;
        }
        Bounds(words[currIdx], FromOn(endOff), WORD_BITS);
        words[currIdx] := And(words[currIdx], FromOn(endOff));
      }
      forall p: nat | Has(p)
        ensures Allocated(p) <==> old(Allocated(p)) && !(first <= p < first + nr)
      {
        ClearedBit(old(words[p / WORD_BITS]), words[p / WORD_BITS], first, first + nr, p);
      }
    }
  }

  lemma WordMasks(from: nat, below: nat)
    requires from < WORD_BITS && below < WORD_BITS
    ensures Below(below) < Pow2(WORD_BITS) && FromOn(from) < Pow2(WORD_BITS) && ONES < Pow2(WORD_BITS)
  {
    PowMono(below, WORD_BITS);
    OnesIs();
  }

  /** What MapAlloc leaves at the bit of page p. */
  lemma MarkedBit(was: nat, now: nat, first: nat, end: nat, p: nat)
    requires first <= end
    requires var w, f, e := p / WORD_BITS, first / WORD_BITS, end / WORD_BITS;
             now == if w == f == e then Or(was, And(Below(end % WORD_BITS), FromOn(first % WORD_BITS)))
                    else if w == f then Or(was, FromOn(first % WORD_BITS))
                    else if w == e then Or(was, Below(end % WORD_BITS))
                    else if f < w < e then ONES else was
    ensures Bit(now, p % WORD_BITS) <==> Bit(was, p % WORD_BITS) || first <= p < end
  {
    hide Bit, Or, And, Below, FromOn;
    var k := p % WORD_BITS;
    MaskBits(first % WORD_BITS, k);
    MaskBits(end % WORD_BITS, k);
    AndBit(Below(end % WORD_BITS), FromOn(first % WORD_BITS), k);
    OrBit(was, And(Below(end % WORD_BITS), FromOn(first % WORD_BITS)), k);
    OrBit(was, FromOn(first % WORD_BITS), k);
    OrBit(was, Below(end % WORD_BITS), k);
  }

  /** What MapFree leaves at the bit of page p. */
  lemma ClearedBit(was: nat, now: nat, first: nat, end: nat, p: nat)
    requires first <= end
    requires var w, f, e := p / WORD_BITS, first / WORD_BITS, end / WORD_BITS;
             now == if w == f == e then And(was, Or(FromOn(end % WORD_BITS), Below(first % WORD_BITS)))
                    else if w == f then And(was, Below(first % WORD_BITS))
                    else if w == e then And(was, FromOn(end % WORD_BITS))
                    else if f < w < e then 0 else was
    ensures Bit(now, p % WORD_BITS) <==> Bit(was, p % WORD_BITS) && !(first <= p < end)
  {
    hide Bit, Or, And, Below, FromOn;
    var k := p % WORD_BITS;
    MaskBits(first % WORD_BITS, k);
    MaskBits(end % WORD_BITS, k);
    OrBit(FromOn(end % WORD_BITS), Below(first % WORD_BITS), k);
    AndBit(was, Or(FromOn(end % WORD_BITS), Below(first % WORD_BITS)), k);
    AndBit(was, Below(first % WORD_BITS), k);
    AndBit(was, FromOn(end % WORD_BITS), k);
  }
}
