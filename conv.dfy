/**
 * The nil-tolerant conversions between numbers and decimal strings
 * (pkg/util/conv.go). A Go `*string`, `*int` or `*uint` is an `Option`:
 * `None` is the nil pointer.
 */
module Conv {
  import opened Numeric
  import opened Wrappers
  import opened Decimal

  /** `AtoIOrNil`: nil for a nil pointer, the empty string, or anything `Atoi` rejects. */
  function AtoIOrNil(s: Option<string>): (r: Option<int64>)
    ensures s.None? || s == Some("") ==> r.None?
    ensures s.Some? && s.value != "" ==> r == Atoi(s.value)
  {
    if s.None? || s.value == "" then None
    else
      match Atoi(s.value)
      case None => None
      case Some(i) => Some(i)
  }

  /** `AtoUIOrNil`: like `AtoIOrNil`, then `uint(i)`, so a negative value wraps modulo 2^64. */
  function AtoUIOrNil(s: Option<string>): (r: Option<uint64>)
    ensures r.Some? <==> AtoIOrNil(s).Some?
    ensures r.Some? ==> (r.value - AtoIOrNil(s).value) % TWO_64 == 0
  {
    if s.None? || s.value == "" then None
    else
      match Atoi(s.value)
      case None => None
      case Some(i) => Some(IntToUint(i))
  }

  /** `ItoAOrNil`: nil for nil, otherwise `strconv.Itoa`. */
  function ItoAOrNil(i: Option<int64>): (r: Option<string>)
    ensures r.None? <==> i.None?
  {
    match i
    case None => None
    case Some(n) => Some(Itoa(n))
  }

  /** `UItoAOrNil`: nil for nil, otherwise `strconv.Itoa(int(u))`: values above 2^63 - 1 print as negative numbers. */
  function UItoAOrNil(u: Option<uint64>): (r: Option<string>)
    ensures r.None? <==> u.None?
    ensures u.Some? && u.value <= MAX_INT64 ==> r == Some(NatToDigits(u.value))
    ensures u.Some? && u.value > MAX_INT64 ==> r == Some("-" + NatToDigits(TWO_64 - u.value))
  {
    match u
    case None => None
    case Some(n) => Some(Itoa(UintToInt(n)))
  }

  /** Every string `Atoi` refuses -- a non-digit other than a leading sign -- gives nil from both parsers. */
  lemma RejectsNonDigit(s: string, k: nat)
    requires k < |s| && !IsDigit(s[k])
    requires k == 0 ==> s[0] != '+' && s[0] != '-'
    ensures AtoIOrNil(Some(s)) == None && AtoUIOrNil(Some(s)) == None
  {
    if s[0] == '+' || s[0] == '-' {
      assert s[1..][k - 1] == s[k];
    }
  }

  /** A bare sign gives nil from both parsers. */
  lemma RejectsBareSign(c: char)
    requires c == '+' || c == '-'
    ensures AtoIOrNil(Some([c])) == None && AtoUIOrNil(Some([c])) == None
  {
    assert [c][1..] == [];
  }

  /** A decimal outside the 64-bit `int` range gives nil from both parsers, even for `AtoUIOrNil`. */
  lemma RejectsOutOfRange(digits: string, negative: bool)
    requires |digits| > 0 && AllDigits(digits)
    requires if negative then ValueOf(digits) > -MIN_INT64 else ValueOf(digits) > MAX_INT64
    ensures var s := if negative then "-" + digits else digits;
            AtoIOrNil(Some(s)) == None && AtoUIOrNil(Some(s)) == None
  {
    var s := if negative then "-" + digits else digits;
    if negative {
      assert s[1..] == digits;
      AtoiAccepts(s, digits, negative);
    } else {
      assert !IsDigit('+') && !IsDigit('-');
      AtoiAccepts(s, digits, negative);
    }
  }

  /** `AtoIOrNil(ItoAOrNil(&n)) == n` for every 64-bit `int`. */
  lemma AtoIItoARoundTrip(n: int64)
    ensures AtoIOrNil(ItoAOrNil(Some(n))) == Some(n)
  {
    AtoiItoa(n);
  }

  /** `AtoUIOrNil(UItoAOrNil(&u)) == u` for every 64-bit `uint`, through the signed wrap above 2^63 - 1. */
  lemma AtoUIUItoARoundTrip(u: uint64)
    ensures AtoUIOrNil(UItoAOrNil(Some(u))) == Some(u)
  {
    AtoiItoa(UintToInt(u));
  }

  /** A negative decimal in range is not rejected by `AtoUIOrNil`: it wraps to 2^64 minus its magnitude. */
  lemma AtoUINegativeWraps(k: nat)
    requires 1 <= k <= -MIN_INT64
    ensures AtoUIOrNil(Some("-" + NatToDigits(k))) == Some(TWO_64 - k)
  {
    var s := "-" + NatToDigits(k);
    assert s[1..] == NatToDigits(k);
    ValueOfNatToDigits(k);
    AtoiAccepts(s, NatToDigits(k), true);
  }

  /** `ItoAOrNil` writes canonical decimal: no leading zero, and a minus sign exactly for negative values. */
  lemma ItoACanonical(n: int64)
    ensures var s := ItoAOrNil(Some(n)).value;
            (n < 0 <==> s[0] == '-') &&
            (n >= 0 ==> Canonical(s)) &&
            (n < 0 ==> s[1..] == NatToDigits(-(n as int)))
  {
  }
}
