/**
 * Decimal text of integers as Go's `strconv` package reads and writes it:
 * `Itoa`, `Atoi` (base 10, 64-bit `int`) and `ParseUint(s, 10, 64)`.
 */
module Decimal {
  import opened Numeric
  import opened Wrappers

  predicate IsDigit(c: char) { '0' <= c <= '9' }

  predicate AllDigits(s: string) { forall k :: 0 <= k < |s| ==> IsDigit(s[k]) }

  /** A non-empty run of digits without a superfluous leading zero. */
  predicate Canonical(s: string)
  {
    |s| > 0 && AllDigits(s) && (|s| > 1 ==> s[0] != '0')
  }

  function DigitValue(c: char): (d: nat)
    requires IsDigit(c)
    ensures d < 10
  {
    c as int - '0' as int
  }

  function DigitChar(d: nat): (c: char)
    requires d < 10
    ensures IsDigit(c) && DigitValue(c) == d
  {
    ('0' as int + d) as char
  }

  /** The number a run of decimal digits denotes, most significant digit first. */
  function ValueOf(s: string): nat
    requires AllDigits(s)
  {
    if s == [] then 0 else ValueOf(s[..|s| - 1]) * 10 + DigitValue(s[|s| - 1])
  }

  /** The canonical decimal digits of a natural number. */
  function NatToDigits(n: nat): (s: string)
    ensures Canonical(s)
    ensures n < 10 <==> |s| == 1
  {
    if n < 10 then [DigitChar(n)] else NatToDigits(n / 10) + [DigitChar(n % 10)]
  }

  /** Reading back the digits of `n` gives `n`. */
  lemma {:induction false} ValueOfNatToDigits(n: nat)
    ensures ValueOf(NatToDigits(n)) == n
  {
    if n >= 10 {
      var s := NatToDigits(n);
      assert s[..|s| - 1] == NatToDigits(n / 10);
      ValueOfNatToDigits(n / 10);
    }
  }

  /** Leading zeros aside, digits are determined by their value: a canonical string is the digits of its value. */
  lemma {:induction false} NatToDigitsValueOf(s: string)
    requires Canonical(s)
    ensures NatToDigits(ValueOf(s)) == s
  {
    var n := ValueOf(s);
    var init := s[..|s| - 1];
    if |s| == 1 {
      assert init == [];
      assert ValueOf(init) == 0;
      assert n == DigitValue(s[0]);
      assert NatToDigits(n) == [DigitChar(n)];
    } else {
      assert init[0] == s[0];
      assert Canonical(init);
      LeadingDigitPositive(init);
      NatToDigitsValueOf(init);
      assert n / 10 == ValueOf(init) && n % 10 == DigitValue(s[|s| - 1]);
      assert s == init + [s[|s| - 1]];
    }
  }

  /** A canonical string of two or more digits denotes at least 10, so its value has more than one digit. */
  lemma {:induction false} LeadingDigitPositive(s: string)
    requires Canonical(s)
    ensures |s| > 1 ==> ValueOf(s) >= 10
    ensures ValueOf(s) > 0 || s == "0"
  {
    if |s| > 1 {
      var init := s[..|s| - 1];
      assert init[0] == s[0];
      LeadingDigitPositive(init);
    }
  }

  /** Go's `strconv.Itoa`: a minus sign for negative values, then the canonical digits. */
  function Itoa(i: int): (s: string)
    ensures |s| > 0
    ensures i < 0 <==> s[0] == '-'
    ensures i >= 0 ==> Canonical(s)
    ensures i < 0 ==> Canonical(s[1..]) && s[1..] != "0"
  {
    if i < 0 then "-" + NatToDigits(-i) else NatToDigits(i)
  }

  /**
   * Go's `strconv.Atoi` on a 64-bit platform: an optional `+` or `-`, then one or
   * more decimal digits (leading zeros allowed, no underscores), and the value must
   * lie in the range of a 64-bit `int`; every other string is a syntax or range error.
   */
  function Atoi(s: string): (r: Option<int64>)
    ensures r.Some? ==> |s| > 0 && (r.value < 0 ==> s[0] == '-')
    ensures r.Some? ==> var digits := if s[0] == '+' || s[0] == '-' then s[1..] else s;
                         |digits| > 0 && AllDigits(digits)
  {
    if |s| == 0 then None
    else
      var digits := if s[0] == '+' || s[0] == '-' then s[1..] else s;
      if |digits| == 0 || !AllDigits(digits) then None
      else
        var v: int := if s[0] == '-' then -(ValueOf(digits) as int) else ValueOf(digits);
        if MIN_INT64 <= v <= MAX_INT64 then Some(v) else None
  }

  /** Go's `strconv.ParseUint(s, 10, 64)`: one or more decimal digits, no sign, at most 2^64 - 1. */
  function ParseUint(s: string): (r: Option<uint64>)
    ensures r.Some? ==> |s| > 0 && AllDigits(s)
    ensures |s| > 0 && AllDigits(s) && ValueOf(s) <= MAX_UINT64 ==> r.Some?
  {
    if |s| == 0 || !AllDigits(s) || ValueOf(s) > MAX_UINT64 then None else Some(ValueOf(s))
  }

  /** `Atoi` reads back what `Itoa` writes, for every 64-bit `int`. */
  lemma AtoiItoa(i: int64)
    ensures Atoi(Itoa(i)) == Some(i)
  {
    var s := Itoa(i);
    if i < 0 {
      var d := NatToDigits(-(i as int));
      assert s == "-" + d;
      assert s[1..] == d;
      ValueOfNatToDigits(-(i as int));
      AtoiAccepts(s, d, true);
    } else {
      var d := NatToDigits(i);
      assert s == d;
      assert s[0] != '+' && s[0] != '-';
      ValueOfNatToDigits(i);
      assert ValueOf(d) == i;
      AtoiAccepts(s, d, false);
    }
  }

  /** `ParseUint` reads back the canonical digits of every 64-bit unsigned value. */
  lemma ParseUintDigits(u: uint64)
    ensures ParseUint(NatToDigits(u)) == Some(u)
  {
    ValueOfNatToDigits(u);
  }

  /** `ParseUint` accepts a string exactly when it is a run of digits whose value fits in 64 bits. */
  lemma ParseUintAccepts(s: string)
    ensures ParseUint(s).Some? <==> |s| > 0 && AllDigits(s) && ValueOf(s) <= MAX_UINT64
    ensures ParseUint(s).Some? ==> ParseUint(s).value == ValueOf(s)
  {
  }

  /** A sign character makes `ParseUint` fail: it never takes `+` or `-`. */
  lemma ParseUintRejectsSign(s: string)
    requires |s| > 0 && (s[0] == '+' || s[0] == '-')
    ensures ParseUint(s) == None
  {
    assert !IsDigit(s[0]);
  }

  /** Exact characterisation of the strings `Atoi` accepts and the value it gives them. */
  lemma AtoiAccepts(s: string, digits: string, negative: bool)
    requires |s| > 0
    requires digits == if s[0] == '+' || s[0] == '-' then s[1..] else s
    requires negative <==> s[0] == '-'
    requires |digits| > 0 && AllDigits(digits)
    ensures negative && ValueOf(digits) <= -MIN_INT64 ==> Atoi(s).Some? && Atoi(s).value == -(ValueOf(digits) as int)
    ensures !negative && ValueOf(digits) <= MAX_INT64 ==> Atoi(s) == Some(ValueOf(digits))
    ensures negative && ValueOf(digits) > -MIN_INT64 ==> Atoi(s) == None
    ensures !negative && ValueOf(digits) > MAX_INT64 ==> Atoi(s) == None
  {
  }

  /** A leading `+` is accepted and changes nothing: `Atoi("+" + d)` is `Atoi(d)` for every digit run `d`. */
  lemma AtoiPlusSign(d: string)
    requires |d| > 0 && AllDigits(d)
    ensures Atoi("+" + d) == Atoi(d)
  {
    assert ("+" + d)[1..] == d;
    assert d[0] != '+' && d[0] != '-';
    AtoiAccepts("+" + d, d, false);
    AtoiAccepts(d, d, false);
  }
}
