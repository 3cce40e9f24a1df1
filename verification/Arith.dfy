/** Quotient and remainder by a positive number, written by repeated subtraction so that proofs stay linear. */
module Arith {
  type pos = x: nat | 0 < x witness 1

  function Div(x: nat, n: pos): nat
    decreases x
  {
    if x < n then 0 else 1 + Div(x - n, n)
  }

  function Mod(x: nat, n: pos): (r: nat)
    ensures r < n
    decreases x
  {
    if x < n then x else Mod(x - n, n)
  }

  /** They are the quotient and the remainder: with Mod(x, n) < n this determines both. */
  lemma {:induction false} DivModDef(x: nat, n: pos)
    ensures x == n * Div(x, n) + Mod(x, n)
    decreases x
  {
    if x >= n {
      DivModDef(x - n, n);
      assert n * (1 + Div(x - n, n)) == n + n * Div(x - n, n);
    }
  }

  lemma {:induction false} DivMono(x: nat, y: nat, n: pos)
    requires x <= y
    ensures Div(x, n) <= Div(y, n)
    decreases x
  {
    if x >= n { DivMono(x - n, y - n, n); }
  }

  lemma {:induction false} DivModUnique(x: nat, y: nat, n: pos)
    requires Div(x, n) == Div(y, n) && Mod(x, n) == Mod(y, n)
    ensures x == y
    decreases x
  {
    if x >= n { DivModUnique(x - n, y - n, n); }
  }

  /** Adding t to x carries from the remainder of x. */
  lemma {:induction false} DivModAdd(x: nat, t: nat, n: pos)
    ensures Div(x + t, n) == Div(x, n) + Div(Mod(x, n) + t, n)
    ensures Mod(x + t, n) == Mod(Mod(x, n) + t, n)
    decreases x
  {
    if x >= n { DivModAdd(x - n, t, n); }
  }

  lemma {:induction false} DivNext(x: nat, n: pos)
    ensures Div(x, n) <= Div(x + 1, n) <= Div(x, n) + 1
    decreases x
  {
    if x >= n { DivNext(x - n, n); }
  }

  lemma {:induction false} DivBelow(x: nat, c: nat, n: pos)
    requires x < c * n
    ensures Div(x, n) < c
    decreases c
  {
    if x >= n {
      assert x - n < (c - 1) * n;
      DivBelow(x - n, c - 1, n);
    } else {
      assert c > 0;
    }
  }

  /** Number of groups of n that x units need. */
  function CeilDiv(x: nat, n: pos): nat { Div(x + n - 1, n) }

  lemma CeilDivAbove(x: nat, i: nat, n: pos)
    requires i < x
    ensures Div(i, n) < CeilDiv(x, n)
  {
    DivMono(i + n, x + n - 1, n);
  }

  lemma CeilDivBelow(x: nat, c: nat, n: pos)
    requires x <= c * n
    ensures CeilDiv(x, n) <= c
  {
    assert x + n - 1 < (c + 1) * n by { assert (c + 1) * n == c * n + n; }
    DivBelow(x + n - 1, c + 1, n);
  }

  lemma ProductAbove(c: pos, n: pos)
    ensures c * n >= n
  {
    assert (c - 1) * n >= 0;
    assert c * n == (c - 1) * n + n;
  }

  lemma {:induction false} DivShift(x: nat, e: nat, n: pos)
    requires x >= e * n
    ensures x - e * n >= 0
    ensures Div(x, n) == Div(x - e * n, n) + e && Mod(x, n) == Mod(x - e * n, n)
    decreases e
  {
    if e > 0 {
      assert e * n == (e - 1) * n + n && (e - 1) * n >= 0;
      assert x >= n;
      DivShift(x - n, e - 1, n);
    }
  }

  /** The remainder by a product, from the remainders by its factors. */
  lemma {:induction false} ModProduct(x: nat, e: pos, n: pos)
    ensures e * n > 0 && Mod(x, e * n) == Mod(Div(x, n), e) * n + Mod(x, n)
    decreases x
  {
    ProductAbove(e, n);
    if x < e * n {
      DivBelow(x, e, n);
      DivModDef(x, n);
    } else {
      DivShift(x, e, n);
      ModProduct(x - e * n, e, n);
    }
  }

  lemma {:induction false} DivOfProduct(c: pos, n: pos)
    ensures c * n > 0 && Div(c * n - 1, n) == c - 1
    decreases c
  {
    ProductAbove(c, n);
    if c > 1 {
      assert c * n == (c - 1) * n + n;
      DivOfProduct(c - 1, n);
    }
  }

  /** Taking the remainder away leaves a multiple, with the same quotient. */
  lemma {:induction false} StartOf(x: nat, n: pos)
    ensures x - Mod(x, n) >= 0
    ensures Div(x - Mod(x, n), n) == Div(x, n) && Mod(x - Mod(x, n), n) == 0
    decreases x
  {
    if x >= n { StartOf(x - n, n); }
  }

  lemma {:induction false} DivLess(x: nat, y: nat, n: pos)
    requires x < y && Mod(y, n) == 0
    ensures Div(x, n) < Div(y, n)
    decreases x
  {
    if x >= n { DivLess(x - n, y - n, n); }
  }

  lemma CeilDivPositive(x: pos, n: pos)
    ensures CeilDiv(x, n) > 0
  {
    CeilDivAbove(x, 0, n);
  }

  /** Stepping back by one leaves the quotient exactly when there is a remainder. */
  lemma {:induction false} DivWithRest(x: pos, n: pos)
    ensures Div(x, n) == Div(x - 1, n) + if Mod(x, n) == 0 then 1 else 0
    decreases x
  {
    if x > n { DivWithRest(x - n, n); }
  }

  lemma MulMono(n: nat, a: nat, b: nat)
    requires a <= b
    ensures n * a <= n * b
  {
  }

  // ----- powers of two

  /** 1 << k. */
  function Pow2(k: nat): (r: nat)
    ensures r > 0
  {
    if k == 0 then 1 else 2 * Pow2(k - 1)
  }

  lemma {:induction false} PowMono(j: nat, k: nat)
    requires j <= k
    ensures Pow2(j) <= Pow2(k)
  {
    if j < k { PowMono(j, k - 1); }
  }

  /** The numbers of [a, b). */
  ghost function Interval(a: nat, b: nat): (s: set<nat>)
    ensures forall x: nat :: x in s <==> a <= x < b
  {
    if a < b then Interval(a, b - 1) + {b - 1} else {}
  }
}
