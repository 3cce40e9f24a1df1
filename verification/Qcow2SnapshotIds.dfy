/**
  The id that a snapshot without one gets: one more than the largest number that the ids of
  the other snapshots begin with.
 */
module Qcow2SnapshotIds {

  const ULONG_LIMIT: nat := 0x1_0000_0000_0000_0000
  const UINT_LIMIT: nat := 0x1_0000_0000
  const INT_MAX: int := 0x7fff_ffff
  const INT_MIN: int := -0x8000_0000

  predicate IsDigit(c: char) { '0' <= c <= '9' }

  predicate IsSpace(c: char) { c == ' ' || 9 as char <= c <= 13 as char }

  function Digit(c: char): nat
    requires IsDigit(c)
  {
    c as int - '0' as int
  }

  /** The number that the leading digits of s continue acc with. */
  function Digits(s: string, acc: nat): nat
    decreases |s|
  {
    if s == "" || !IsDigit(s[0]) then acc else Digits(s[1..], 10 * acc + Digit(s[0]))
  }

  function Unsigned(s: string): nat {
    if Digits(s, 0) < ULONG_LIMIT then Digits(s, 0) else ULONG_LIMIT - 1
  }

  /** strtoul(s, NULL, 10): white space, a sign, digits; too large is the largest number, a minus negates. */
  function Strtoul(s: string): nat {
    if s == "" then 0
    else if IsSpace(s[0]) then Strtoul(s[1..])
    else if s[0] == '-' then Negated(s[1..])
    else Unsigned(if s[0] == '+' then s[1..] else s)
  }

  function Negated(s: string): nat {
    if Digits(s, 0) < ULONG_LIMIT then (ULONG_LIMIT - Digits(s, 0)) % ULONG_LIMIT else ULONG_LIMIT - 1
  }

  /** What is left of a number when it is stored in an int. */
  function ToInt(v: int): int {
    var w := v % UINT_LIMIT;
    if w <= INT_MAX then w else w - UINT_LIMIT
  }

  function IdNumber(id: string): int { ToInt(Strtoul(id)) }

  /** The largest number of an id, at least 0. */
  function MaxId(ids: seq<string>): (m: int)
    ensures 0 <= m <= INT_MAX
  {
    if ids == [] then 0
    else
      var m, id := MaxId(ids[..|ids| - 1]), IdNumber(ids[|ids| - 1]);
      if id > m then id else m
  }

  /** The decimal digits of n. */
  function Decimal(n: nat): (s: string)
    ensures s != "" && forall i :: 0 <= i < |s| ==> IsDigit(s[i])
  {
    (if n < 10 then "" else Decimal(n / 10)) + [(n % 10 + '0' as int) as char]
  }

  /** "%d" */
  function Printed(v: int): string { if v < 0 then "-" + Decimal(-v) else Decimal(v) }

  function NewId(ids: seq<string>): string { Printed(ToInt(MaxId(ids) + 1)) }

  /** The largest number: no id has a larger one, and some id has it unless it is 0. */
  lemma {:induction false} MaxIdIs(ids: seq<string>)
    ensures forall i :: 0 <= i < |ids| ==> IdNumber(ids[i]) <= MaxId(ids)
    ensures MaxId(ids) > 0 ==> exists i :: 0 <= i < |ids| && IdNumber(ids[i]) == MaxId(ids)
    decreases |ids|
  {
    hide IdNumber;
    if ids != [] {
      var front := ids[..|ids| - 1];
      MaxIdIs(front);
      if MaxId(front) > 0 {
        var i :| 0 <= i < |front| && IdNumber(front[i]) == MaxId(front);
        assert ids[i] == front[i];
      }
    }
  }

  /** Digit i of n from the right is the one of weight 10^i. */
  lemma {:induction false} DecimalDigit(n: nat, i: nat)
    requires i < |Decimal(n)|
    ensures Digit(Decimal(n)[|Decimal(n)| - 1 - i]) == Shifted(n, i) % 10
    decreases i
  {
    if i > 0 { DecimalDigit(n / 10, i - 1); }
  }

  /** n without its last i digits. */
  function Shifted(n: nat, i: nat): nat
    decreases i
  {
    if i == 0 then n else Shifted(n / 10, i - 1)
  }

  /** How ids are read as numbers: white space and a sign, then digits; what follows does not matter. */
  lemma IdNumbers()
    ensures IdNumber("7") == IdNumber(" 7") == IdNumber("+7") == IdNumber("7a") == 7
    ensures IdNumber("-1") == -1 && IdNumber("a7") == IdNumber("") == 0
  {
    assert "7"[1..] == "" && "7a"[1..] == "a" && " 7"[1..] == "7" && "+7"[1..] == "7" && "-1"[1..] == "1";
    assert Digits("7", 0) == 7 && Digits("1", 0) == 1 && "1"[1..] == "";
    assert Digits("7a", 0) == Digits("a", 7) == 7;
  }

  /**
    A number is reduced to 32 bits with a sign, and one that does not fit 64 bits reads as -1. A minus
    negates it first.
   */
  lemma IdWraps(s: string)
    requires s != "" && IsDigit(s[0])
    ensures INT_MIN <= IdNumber(s) <= INT_MAX && INT_MIN <= IdNumber("-" + s) <= INT_MAX
    ensures Digits(s, 0) < 0x1_0000_0000_0000_0000 ==> (IdNumber(s) - Digits(s, 0)) % 0x1_0000_0000 == 0
    ensures Digits(s, 0) < 0x1_0000_0000_0000_0000 ==> (IdNumber("-" + s) + Digits(s, 0)) % 0x1_0000_0000 == 0
    ensures Digits(s, 0) >= 0x1_0000_0000_0000_0000 ==> IdNumber(s) == IdNumber("-" + s) == -1
  {
    hide Digits, ToInt;
    assert ("-" + s)[1..] == s;
    ToIntIs(Strtoul(s));
    ToIntIs(Strtoul("-" + s));
    ToIntNegated(Digits(s, 0));
    ToIntLargest();
  }

  lemma ToIntIs(v: nat)
    ensures INT_MIN <= ToInt(v) <= INT_MAX && (ToInt(v) - v) % 0x1_0000_0000 == 0
  {
  }

  lemma ToIntNegated(d: nat)
    ensures d < ULONG_LIMIT ==> (ToInt((ULONG_LIMIT - d) % ULONG_LIMIT) + d) % 0x1_0000_0000 == 0
  {
  }

  lemma ToIntLargest()
    ensures ToInt(ULONG_LIMIT - 1) == -1
  {
  }

  /** White space in front of a number does not matter. */
  lemma SpacesSkipped(c: char, s: string)
    requires c in {' ', '\t', '\n', 11 as char, 12 as char, '\r'}
    ensures IdNumber([c] + s) == IdNumber(s)
  {
    assert ([c] + s)[1..] == s;
  }

  /** The first snapshot without an id gets "1", and after "1" and "2" comes "3". */
  lemma FirstIds()
    ensures NewId([]) == "1" && NewId(["1", "2"]) == "3" && NewId(["9"]) == "10"
  {
    hide IdNumber, Printed, MaxId;
    SmallNumbers();
    SmallMaxima();
  }

  lemma SmallMaxima()
    ensures MaxId([]) == 0 && MaxId(["1", "2"]) == 2 && MaxId(["9"]) == 9
  {
    hide IdNumber;
    OneDigit('1');
    OneDigit('2');
    OneDigit('9');
    assert ["1", "2"][..1] == ["1"] && ["1"][..0] == [] && ["9"][..0] == [];
    assert MaxId(["1"]) == 1;
  }

  lemma SmallNumbers()
    ensures Printed(0) == "0" && Printed(1) == "1" && Printed(3) == "3" && Printed(10) == "10" && Printed(-5) == "-5"
  {
    assert Decimal(10) == Decimal(1) + "0";
  }

  lemma OneDigit(c: char)
    requires IsDigit(c)
    ensures IdNumber([c]) == Digit(c)
  {
    assert [c][1..] == "";
    assert Digits([c], 0) == Digit(c);
  }

  function Pow10(k: nat): nat { if k == 0 then 1 else 10 * Pow10(k - 1) }

  lemma {:induction false} DecimalShort(n: nat, k: nat)
    requires k > 0 && n < Pow10(k)
    ensures |Decimal(n)| <= k
    decreases k
  {
    if n >= 10 { DecimalShort(n / 10, k - 1); }
  }

  /** A made-up id is a short string of ordinary characters. */
  lemma NewIdShort(ids: seq<string>)
    ensures |NewId(ids)| <= 11 && forall i :: 0 <= i < |NewId(ids)| ==> IsDigit(NewId(ids)[i]) || NewId(ids)[i] == '-'
  {
    hide MaxId, Decimal;
    var v := ToInt(MaxId(ids) + 1);
    assert Pow10(10) == 10_000_000_000 by { assert Pow10(5) == 100_000; }
    DecimalShort(if v < 0 then -v else v, 10);
  }

  /** The id that a snapshot gets: the one given, or a new one when none is. */
  function GivenId(ids: seq<string>, id: string): string { if id == "" then NewId(ids) else id }

  // ----- printing and reading back

  lemma {:induction false} DigitsAppend(s: string, c: char, acc: nat)
    requires IsDigit(c) && forall i :: 0 <= i < |s| ==> IsDigit(s[i])
    ensures Digits(s + [c], acc) == 10 * Digits(s, acc) + Digit(c)
    decreases |s|
  {
    if s == "" {
      assert s + [c] == [c] && [c][1..] == "";
    } else {
      assert (s + [c])[0] == s[0] && (s + [c])[1..] == s[1..] + [c];
      DigitsAppend(s[1..], c, 10 * acc + Digit(s[0]));
    }
  }

  lemma {:induction false} DecimalReads(n: nat)
    ensures Digits(Decimal(n), 0) == n
  {
    var c := (n % 10 + '0' as int) as char;
    if n < 10 {
      assert Decimal(n) == "" + [c];
      DigitsAppend("", c, 0);
    } else {
      DecimalReads(n / 10);
      DigitsAppend(Decimal(n / 10), c, 0);
    }
  }

  lemma PrintedReads(n: nat)
    requires n <= INT_MAX
    ensures IdNumber(Printed(n)) == n
  {
    DecimalReads(n);
    var s := Decimal(n);
    assert IsDigit(s[0]);
  }

  // ----- the new id

  lemma {:induction false} MaxIdAbove(ids: seq<string>, i: nat)
    requires i < |ids|
    ensures IdNumber(ids[i]) <= MaxId(ids)
    decreases |ids|
  {
    if i < |ids| - 1 { MaxIdAbove(ids[..|ids| - 1], i); }
  }

  lemma NextInt(m: int)
    requires 0 <= m <= INT_MAX
    ensures ToInt(m + 1) == if m < INT_MAX then m + 1 else INT_MIN
  {
  }

  /** A new id is in use exactly when the numbers have run out and the id behind the largest one is. */
  lemma NewIdUnused(ids: seq<string>)
    ensures NewId(ids) in ids <==> MaxId(ids) == INT_MAX && Printed(INT_MIN) in ids
  {
    hide Printed, IdNumber, MaxId, ToInt;
    var m := MaxId(ids);
    NextInt(m);
    if m < INT_MAX {
      PrintedReads(m + 1);
      forall i | 0 <= i < |ids|
        ensures ids[i] != NewId(ids)
      {
        MaxIdAbove(ids, i);
      }
    }
  }

  /** The numbers can run out: with these two ids the new one is in use already. */
  lemma NumbersRunOut()
    ensures var ids := [Printed(INT_MAX), Printed(INT_MIN)]; NewId(ids) in ids
  {
    hide Printed, IdNumber, MaxId, NewId;
    var ids := [Printed(INT_MAX), Printed(INT_MIN)];
    PrintedReads(INT_MAX);
    MaxIdAbove(ids, 0);
    NewIdUnused(ids);
    assert ids[1] in ids;
  }

  /** find_new_snapshot_id */
  method FindNewSnapshotId(ids: seq<string>) returns (id: string)
    ensures id == NewId(ids)
  {
    var idMax := 0;
    for i := 0 to |ids|
      invariant idMax == MaxId(ids[..i])
    {
      assert ids[..i + 1][..i] == ids[..i];
      var n := IdNumber(ids[i]);
      if n > idMax { idMax := n; }
    }
    assert ids[..|ids|] == ids;
    id := Printed(ToInt(idMax + 1));
  }
}
