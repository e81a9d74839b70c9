/**
 * Decimal text of integers, as the handlers produce it with str() and read it
 * back with int(): entity ids in URLs and links, and the limit and offset
 * parameters of a listing.
 */
module Text {
  import opened Optional

  predicate IsDigit(c: char) { '0' <= c <= '9' }

  predicate AllDigits(s: string) { forall i :: 0 <= i < |s| ==> IsDigit(s[i]) }

  /** The numeral character of a single digit value. */
  function DigitChar(d: nat): (c: char)
    requires d < 10
    ensures IsDigit(c) && c as int - '0' as int == d
  {
    ('0' as int + d) as char
  }

  /** str(n) for a non-negative int: a non-empty run of digits without leading zeros. */
  function Decimal(n: nat): (s: string)
    ensures |s| > 0 && AllDigits(s)
    ensures s[0] == '0' ==> n == 0 && |s| == 1
    decreases n
  {
    if n < 10 then [DigitChar(n)] else Decimal(n / 10) + [DigitChar(n % 10)]
  }

  /** The number a run of digits denotes, most significant digit first. */
  function DigitsValue(s: string): nat
    requires AllDigits(s)
  {
    if s == [] then 0 else DigitsValue(s[..|s| - 1]) * 10 + (s[|s| - 1] as int - '0' as int)
  }

  /** int(s) restricted to plain digit strings; None where int() would raise. */
  function ParseNat(s: string): (r: Option<nat>)
    ensures r.Some? <==> |s| > 0 && AllDigits(s)
  {
    if s != [] && AllDigits(s) then Some(DigitsValue(s)) else None
  }

  /** str(i) for any int: a minus sign before the numeral of a negative number. */
  function IntText(i: int): (r: string)
    ensures |r| > 0 && (r[0] == '-' <==> i < 0)
    ensures i < 0 ==> AllDigits(r[1..]) && |r| > 1
    ensures i >= 0 ==> AllDigits(r)
  {
    if i < 0 then "-" + Decimal(-i) else Decimal(i)
  }

  /** int(s) for an optionally negative digit string. */
  function ParseInt(s: string): (r: Option<int>)
    ensures r.Some? <==> if |s| > 0 && s[0] == '-' then |s| > 1 && AllDigits(s[1..]) else |s| > 0 && AllDigits(s)
    ensures r.Some? && r.value < 0 ==> s[0] == '-'
  {
    if |s| > 0 && s[0] == '-' then
      match ParseNat(s[1..])
      case Some(n) => Some(-(n as int))
      case None => None
    else
      match ParseNat(s)
      case Some(n) => Some(n as int)
      case None => None
  }

  lemma {:induction false} DecimalValue(n: nat)
    ensures DigitsValue(Decimal(n)) == n
    decreases n
  {
    if n >= 10 {
      DecimalValue(n / 10);
      var s := Decimal(n);
      assert s[..|s| - 1] == Decimal(n / 10);
    }
  }

  /** int(str(n)) == n. */
  lemma ParseDecimal(n: nat)
    ensures ParseNat(Decimal(n)) == Some(n)
  {
    DecimalValue(n);
  }

  /** A digit string without a leading zero has at least the value of its leading digit, so a longer one is at least 10. */
  lemma {:induction false} LeadingDigitBound(s: string)
    requires |s| > 0 && AllDigits(s)
    ensures DigitsValue(s) >= s[0] as int - '0' as int
    ensures |s| > 1 && s[0] != '0' ==> DigitsValue(s) >= 10
  {
    if |s| == 1 {
      assert s[..0] == [];
    } else {
      var t := s[..|s| - 1];
      LeadingDigitBound(t);
      assert t[0] == s[0];
    }
  }

  /** str(int(s)) == s for a digit string without a leading zero: canonical id text survives the trip. */
  lemma {:induction false} ParseNatCanonical(s: string)
    requires |s| > 0 && AllDigits(s) && (s[0] == '0' ==> |s| == 1)
    ensures ParseNat(s).Some? && Decimal(ParseNat(s).value) == s
  {
    var v := DigitsValue(s);
    if |s| == 1 {
      LeadingDigitBound(s);
      assert s[..0] == [];
      assert Decimal(v) == [DigitChar(v)];
    } else {
      var t := s[..|s| - 1];
      assert t[0] == s[0];
      LeadingDigitBound(s);
      ParseNatCanonical(t);
      var d := s[|s| - 1] as int - '0' as int;
      assert v == DigitsValue(t) * 10 + d;
      assert v / 10 == DigitsValue(t) && v % 10 == d;
      assert Decimal(v) == Decimal(DigitsValue(t)) + [DigitChar(d)];
      assert s == t + [s[|s| - 1]];
    }
  }

  /** Two ids have the same text exactly when they are the same id. */
  lemma DecimalInjective(m: nat, n: nat)
    ensures Decimal(m) == Decimal(n) <==> m == n
  {
    if Decimal(m) == Decimal(n) {
      ParseDecimal(m);
      ParseDecimal(n);
    }
  }

  /** int(str(i)) == i, negative numbers included. */
  lemma IntTextRoundTrip(i: int)
    ensures ParseInt(IntText(i)) == Some(i)
  {
    var s := IntText(i);
    if i < 0 {
      assert s[0] == '-' && s[1..] == Decimal(-i);
      ParseDecimal(-i);
    } else {
      assert s == Decimal(i);
      ParseDecimal(i);
      assert IsDigit(s[0]);
    }
  }
}
