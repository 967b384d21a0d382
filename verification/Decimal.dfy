/** Python's `str` of a natural number and `int` of its digits. */
module Decimal {

  function Str(n: nat): (s: string)
    ensures s != "" && forall i :: 0 <= i < |s| ==> '0' <= s[i] <= '9'
  {
    if n < 10 then [('0' as int + n) as char] else Str(n / 10) + [('0' as int + n % 10) as char]
  }

  function ParseNat(s: string): nat
    requires forall i :: 0 <= i < |s| ==> '0' <= s[i] <= '9'
  {
    if s == "" then 0 else 10 * ParseNat(s[..|s| - 1]) + (s[|s| - 1] as int - '0' as int)
  }

  lemma {:induction false} ParseStr(n: nat)
    ensures ParseNat(Str(n)) == n
  {
    if n < 10 {
      assert Str(n)[..0] == "";
    } else {
      ParseStr(n / 10);
      assert Str(n)[..|Str(n)| - 1] == Str(n / 10);
    }
  }

  /** Writing out a number appends its last digit to the rest. */
  lemma LastDigit(n: nat, d: nat)
    requires d < 10
    ensures Str(d) == [('0' as int + d) as char]
    ensures 0 < n ==> Str(10 * n + d) == Str(n) + Str(d)
  {
  }

  /** Reading it is the same backwards. */
  lemma ReadLastDigit(s: string, d: nat)
    requires d < 10 && forall i :: 0 <= i < |s| ==> '0' <= s[i] <= '9'
    ensures ParseNat(s + Str(d)) == 10 * ParseNat(s) + d
  {
    assert (s + Str(d))[..|s|] == s;
  }
}
