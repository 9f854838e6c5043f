/** Decimal integers as strconv reads and prints them. */
module Strconv {
  import opened Prelude

  predicate IsDigit(c: char) {
    '0' <= c <= '9'
  }

  predicate AllDigits(s: string) {
    |s| > 0 && forall i :: 0 <= i < |s| ==> IsDigit(s[i])
  }

  function DigitsValue(s: string): nat
    requires forall i :: 0 <= i < |s| ==> IsDigit(s[i])
  {
    if s == "" then 0
    else
      var c := s[|s| - 1];
      assert IsDigit(c);
      DigitsValue(s[..|s| - 1]) * 10 + (c as int - '0' as int)
  }

  /** strconv.ParseInt(s, 10, 64): an optional sign, at least one digit, and a value that fits an int64. */
  function ParseInt(s: string): Option<Int64> {
    var negative := |s| > 0 && s[0] == '-';
    var digits := if |s| > 0 && (s[0] == '-' || s[0] == '+') then s[1..] else s;
    if !AllDigits(digits) then None
    else
      var magnitude: int := DigitsValue(digits);
      var value: int := if negative then -magnitude else magnitude;
      if -TWO63 <= value < TWO63 then Some(value) else None
  }

  /** What is read is an optional sign followed by digits only, and fits an int64; nothing else is read. */
  lemma ParseIntIff(s: string)
    ensures ParseInt(s).Some? <==>
            exists d :: AllDigits(d) && (((s == d || s == "+" + d) && DigitsValue(d) < TWO63)
                                         || (s == "-" + d && DigitsValue(d) <= TWO63))
  {
    if ParseInt(s).Some? {
      var d := if s[0] == '-' || s[0] == '+' then s[1..] else s;
      assert AllDigits(d) && (s == d || s == "+" + d || s == "-" + d);
    }
    if d :| AllDigits(d) && (((s == d || s == "+" + d) && DigitsValue(d) < TWO63)
                             || (s == "-" + d && DigitsValue(d) <= TWO63)) {
      assert IsDigit(d[0]);
      assert ("+" + d)[1..] == d && ("-" + d)[1..] == d;
    }
  }

  function FormatNat(n: nat): (s: string)
    ensures AllDigits(s)
  {
    var last := [('0' as int + n % 10) as char];
    if n < 10 then last else FormatNat(n / 10) + last
  }

  lemma {:induction false} DigitsOfFormat(n: nat)
    ensures DigitsValue(FormatNat(n)) == n
  {
    var last := [('0' as int + n % 10) as char];
    if n < 10 {
      assert last[..0] == "";
    } else {
      DigitsOfFormat(n / 10);
      var s := FormatNat(n / 10) + last;
      assert s[..|s| - 1] == FormatNat(n / 10);
    }
  }

  /** What FormatInt prints, ParseInt reads back. */
  lemma ParseFormat(n: int)
    requires -TWO63 <= n < TWO63
    ensures n >= 0 ==> ParseInt(FormatNat(n)) == Some(n)
    ensures n < 0 ==> ParseInt("-" + FormatNat(-n)) == Some(n)
  {
    if n >= 0 {
      DigitsOfFormat(n);
      assert IsDigit(FormatNat(n)[0]);
    } else {
      DigitsOfFormat(-n);
      assert ("-" + FormatNat(-n))[1..] == FormatNat(-n);
    }
  }
}
