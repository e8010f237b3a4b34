// Decimal integers as text: what Go's big.Int prints, and what SetString(s, 10) reads.
module Decimals {
  import opened Wrappers

  predicate IsDigit(c: char) {
    '0' <= c <= '9'
  }

  predicate AllDigits(s: string) {
    forall i :: 0 <= i < |s| ==> IsDigit(s[i])
  }

  function DigitValue(c: char): (d: nat)
    requires IsDigit(c)
    ensures d < 10
  {
    c as int - '0' as int
  }

  function DigitChar(d: nat): (c: char)
    requires d < 10
    ensures IsDigit(c) && DigitValue(c) == d
  {
    ('0' as int + d) as char
  }

  function NatValue(s: string): nat
    requires AllDigits(s)
  {
    if s == "" then 0 else 10 * NatValue(s[..|s| - 1]) + DigitValue(s[|s| - 1])
  }

  function FormatNat(n: nat): (s: string)
    ensures AllDigits(s) && s != ""
    ensures s[0] == '0' ==> |s| == 1
    decreases n
  {
    if n < 10 then [DigitChar(n)] else FormatNat(n / 10) + [DigitChar(n % 10)]
  }

  function FormatInt(i: int): string {
    if i < 0 then "-" + FormatNat(-i) else FormatNat(i)
  }

  // SetString(s, 10): an optional sign and at least one digit.
  function ParseInt(s: string): Option<int> {
    if s != "" && s[0] in {'+', '-'} then
      if s[1..] != "" && AllDigits(s[1..]) then
        var n: int := NatValue(s[1..]);
        Some(if s[0] == '-' then -n else n)
      else None
    else if s != "" && AllDigits(s) then Some(NatValue(s))
    else None
  }

  lemma {:induction false} FormatNatValue(n: nat)
    ensures NatValue(FormatNat(n)) == n
    decreases n
  {
    var s := FormatNat(n);
    if n < 10 {
      assert s[..0] == "";
    } else {
      FormatNatValue(n / 10);
      assert s[..|s| - 1] == FormatNat(n / 10);
    }
  }

  lemma {:induction false} ParseFormatted(i: int)
    ensures ParseInt(FormatInt(i)) == Some(i)
  {
    if i < 0 {
      FormatNatValue(-i);
      assert FormatInt(i)[1..] == FormatNat(-i);
    } else {
      FormatNatValue(i);
      assert IsDigit(FormatInt(i)[0]);
    }
  }
}
