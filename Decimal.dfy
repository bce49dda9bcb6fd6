/** Decimal rendering of natural numbers, as Python's `str(x)` produces it for
    the non-negative integers the topology builders use in node names. */
module Decimal {

  /** The character for one decimal digit. */
  function Digit(d: nat): (c: char)
    requires d < 10
    ensures '0' <= c <= '9'
    ensures c as int - '0' as int == d
  {
    ('0' as int + d) as char
  }

  /** `str(n)`: most significant digit first, no leading zero. */
  function Str(n: nat): (s: string)
    ensures 1 <= |s|
    ensures forall i :: 0 <= i < |s| ==> '0' <= s[i] <= '9'
    ensures 1 <= n ==> s[0] != '0'
    ensures n < 10 <==> |s| == 1
  {
    if n < 10 then [Digit(n)] else Str(n / 10) + [Digit(n % 10)]
  }

  /** Reads a string of decimal digits back into a number (the inverse of Str). */
  function Value(s: string): nat
  {
    if |s| == 0 then 0
    else
      var d := s[|s| - 1] as int - '0' as int;
      Value(s[..|s| - 1]) * 10 + (if 0 <= d < 10 then d else 0)
  }

  lemma {:induction false} ValueOfStr(n: nat)
    ensures Value(Str(n)) == n
  {
    if n >= 10 {
      var s := Str(n);
      assert s[..|s| - 1] == Str(n / 10);
      ValueOfStr(n / 10);
    }
  }

  /** Distinct numbers have distinct renderings. */
  lemma StrInjective(a: nat, b: nat)
    ensures Str(a) == Str(b) <==> a == b
  {
    if Str(a) == Str(b) {
      ValueOfStr(a);
      ValueOfStr(b);
    }
  }

  /** Two-digit numbers have two-character renderings. */
  lemma StrTwoDigits(n: nat)
    requires 10 <= n <= 99
    ensures |Str(n)| == 2
  {
    assert Str(n) == Str(n / 10) + [Digit(n % 10)];
  }
}
