/**
 Digits, and numbers written with them.
 */
module Decimals {
  predicate IsDigit(c: char) {
    '0' <= c <= '9'
  }

  predicate All(s: string, p: char -> bool) {
    forall i :: 0 <= i < |s| ==> p(s[i])
  }

  function Decimal(n: nat): (s: string)
    ensures |s| >= 1 && All(s, IsDigit)
  {
    var d := ['0' + (n % 10) as char];
    if n < 10 then d else Decimal(n / 10) + d
  }

  lemma {:induction false} DecimalInjective(m: nat, n: nat)
    requires Decimal(m) == Decimal(n)
    ensures m == n
  {
    var s, t := Decimal(m), Decimal(n);
    assert s[|s| - 1] == '0' + (m % 10) as char && t[|t| - 1] == '0' + (n % 10) as char;
    assert (m >= 10 <==> |s| >= 2) && (n >= 10 <==> |t| >= 2);
    if m >= 10 {
      assert s[..|s| - 1] == Decimal(m / 10) && t[..|t| - 1] == Decimal(n / 10);
      DecimalInjective(m / 10, n / 10);
    }
  }

  /** Decimal notation has no leading zeros. */
  lemma {:induction false} DecimalLeads(n: nat)
    ensures Decimal(n)[0] == '0' ==> n == 0
  {
    if n >= 10 {
      DecimalLeads(n / 10);
    }
  }

  /** Digits without leading zeros are the decimal notation of a number. */
  lemma {:induction false} DigitsAreDecimal(s: string) returns (n: nat)
    requires s != "" && All(s, IsDigit) && (s[0] == '0' ==> |s| == 1)
    ensures Decimal(n) == s
  {
    var k := |s| - 1;
    var d := (s[k] - '0') as int;
    assert s[k] == '0' + d as char && s == s[..k] + [s[k]];
    if k == 0 {
      n := d;
    } else {
      var m := DigitsAreDecimal(s[..k]);
      assert Decimal(0) == "0";
      assert m > 0;
      n := 10 * m + d;
    }
  }

  function Octal(n: nat): (s: string)
    ensures |s| >= 1 && forall i :: 0 <= i < |s| ==> '0' <= s[i] < '8'
  {
    var d := ['0' + (n % 8) as char];
    if n < 8 then d else Octal(n / 8) + d
  }
}
