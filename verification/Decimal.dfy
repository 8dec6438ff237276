/** Decimal notation of integers: std::to_string and fmt's "{}" on one side, the SQL lexer and
    the JSON reader on the other. */
module Decimal {
  import opened Wrappers

  predicate IsDigit(c: char) { '0' <= c <= '9' }

  predicate AllDigits(s: string) { forall i :: 0 <= i < |s| ==> IsDigit(s[i]) }

  function DigitChar(d: nat): (c: char)
    requires d < 10
    ensures IsDigit(c) && DigitValue(c) == d
  {
    '0' + d as char
  }

  function DigitValue(c: char): (d: nat)
    requires IsDigit(c)
    ensures d < 10
  {
    (c - '0') as nat
  }

  /** Decimal notation without leading zeros. */
  function OfNat(n: nat): (s: string)
    ensures |s| > 0 && AllDigits(s)
    ensures |s| > 1 ==> s[0] != '0'
  {
    if n < 10 then [DigitChar(n)] else OfNat(n / 10) + [DigitChar(n % 10)]
  }

  function OfInt(i: int): string {
    if i < 0 then "-" + OfNat(-i) else OfNat(i)
  }

  function NatValue(s: string): nat
    requires AllDigits(s)
  {
    if s == [] then 0 else 10 * NatValue(s[..|s| - 1]) + DigitValue(s[|s| - 1])
  }

  function ParseNat(s: string): Option<nat> {
    if s != [] && AllDigits(s) then Some(NatValue(s)) else None
  }

  function ParseInt(s: string): Option<int> {
    if s != [] && s[0] == '-' then
      var n := ParseNat(s[1..]);
      if n.Some? then Some(-(n.value as int)) else None
    else
      ParseNat(s)
  }

  lemma {:induction false} ParseNatOfNat(n: nat)
    ensures ParseNat(OfNat(n)) == Some(n)
  {
    var s := OfNat(n);
    if n >= 10 {
      ParseNatOfNat(n / 10);
      assert s[..|s| - 1] == OfNat(n / 10);
    } else {
      assert s[..0] == [];
      assert NatValue(s) == 10 * NatValue([]) + DigitValue(s[0]);
    }
  }

  lemma {:induction false} ParseIntOfInt(i: int)
    ensures ParseInt(OfInt(i)) == Some(i)
  {
    if i < 0 {
      ParseNatOfNat(-i);
      assert OfInt(i)[1..] == OfNat(-i);
    } else {
      ParseNatOfNat(i);
      assert IsDigit(OfNat(i)[0]);
    }
  }

  /** The digits as they are written. */
  lemma Written()
    ensures OfInt(0) == "0" && OfInt(7) == "7" && OfInt(120) == "120" && OfInt(-120) == "-120"
  {
  }
}
