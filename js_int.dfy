/** JavaScript's parseInt(s) restricted to an optional sign followed by
    decimal digits (the digits stop at the first non-digit), and the decimal
    text that the database driver produces for a count. */
module JsInt {
  import opened Wrappers

  predicate IsDigit(c: char) {
    '0' <= c <= '9'
  }

  predicate AllDigits(s: string) {
    forall i :: 0 <= i < |s| ==> IsDigit(s[i])
  }

  function DigitValue(c: char): (d: nat)
    requires IsDigit(c)
    ensures d < 10
  {
    c as int - '0' as int
  }

  function DigitChar(d: nat): (c: char)
    requires d < 10
    ensures IsDigit(c) && DigitValue(c) == d
  {
    ('0' as int + d) as char
  }

  /** How many decimal digits `s` starts with. */
  function LeadingDigits(s: string): (k: nat)
    ensures k <= |s| && AllDigits(s[..k])
    ensures k < |s| ==> !IsDigit(s[k])
  {
    if s == [] || !IsDigit(s[0]) then 0
    else
      var k := 1 + LeadingDigits(s[1..]);
      assert s[..k] == [s[0]] + s[1..][..k - 1];
      k
  }

  /** The number a string of decimal digits denotes, most significant first. */
  function DigitsValue(ds: string): nat
    requires AllDigits(ds)
  {
    if ds == [] then 0 else 10 * DigitsValue(ds[..|ds| - 1]) + DigitValue(ds[|ds| - 1])
  }

  /** The unsigned part: the value of the leading digits, none if there are none (NaN). */
  function ParseDigits(s: string): (r: Option<nat>)
    ensures r.Some? <==> |s| > 0 && IsDigit(s[0])
  {
    var k := LeadingDigits(s);
    if k == 0 then None else Some(DigitsValue(s[..k]))
  }

  predicate IsSign(c: char) {
    c == '-' || c == '+'
  }

  /** parseInt(s): an optional sign, then the leading digits; None stands for NaN. */
  function ParseInt(s: string): (r: Option<int>)
    ensures r.Some? <==> (|s| > 0 && IsDigit(s[0])) || (|s| > 1 && IsSign(s[0]) && IsDigit(s[1]))
    ensures r.Some? && s[0] == '-' ==> r.value <= 0
    ensures r.Some? && s[0] != '-' ==> r.value >= 0
  {
    if |s| > 0 && IsSign(s[0]) then
      match ParseDigits(s[1..])
      case None => None
      case Some(n) => Some(if s[0] == '-' then -(n as int) else n as int)
    else ParseDigits(s)
  }

  /** The decimal text of a natural number, without sign or leading zeros. */
  function Decimal(n: nat): (s: string)
    ensures |s| > 0 && AllDigits(s)
    ensures |s| > 1 ==> s[0] != '0'
  {
    if n < 10 then [DigitChar(n)] else Decimal(n / 10) + [DigitChar(n % 10)]
  }

  lemma {:induction false} DecimalValue(n: nat)
    ensures DigitsValue(Decimal(n)) == n
  {
    if n >= 10 {
      DecimalValue(n / 10);
      var s := Decimal(n);
      assert s[..|s| - 1] == Decimal(n / 10);
    }
  }

  lemma {:induction false} LeadingDigitsOfDigits(ds: string, rest: string)
    requires AllDigits(ds)
    requires rest == [] || !IsDigit(rest[0])
    ensures LeadingDigits(ds + rest) == |ds|
  {
    if ds != [] {
      LeadingDigitsOfDigits(ds[1..], rest);
      assert (ds + rest)[1..] == ds[1..] + rest;
    } else {
      assert ds + rest == rest;
    }
  }

  /** parseInt reads back a rendered count, whatever non-digit text follows it. */
  lemma ParseDecimal(n: nat, rest: string)
    requires rest == [] || !IsDigit(rest[0])
    ensures ParseInt(Decimal(n) + rest) == Some(n)
  {
    var s := Decimal(n) + rest;
    LeadingDigitsOfDigits(Decimal(n), rest);
    assert s[..|Decimal(n)|] == Decimal(n);
    DecimalValue(n);
  }

  /** A minus sign in front of a rendered number reads back its negation. */
  lemma ParseNegativeDecimal(n: nat)
    ensures ParseInt("-" + Decimal(n)) == Some(-(n as int))
  {
    ParseDecimal(n, []);
    assert ("-" + Decimal(n))[1..] == Decimal(n) + [];
  }
}
