/** Decimal notation: what printf writes for an integer, and what its digits mean. */
module Decimals {
  predicate Digits(s: string) {
    forall k :: 0 <= k < |s| ==> '0' <= s[k] <= '9'
  }

  function DigitValue(c: char): nat
    requires '0' <= c <= '9'
  {
    c as int - '0' as int
  }

  function DecimalValue(s: string): nat
    requires Digits(s)
  {
    if s == [] then 0 else DecimalValue(s[..|s| - 1]) * 10 + DigitValue(s[|s| - 1])
  }

  /** The digits of a number, most significant first. */
  function Decimal(n: nat): (s: string)
    ensures s != [] && Digits(s)
  {
    var digit := [(n % 10 + '0' as int) as char];
    if n < 10 then digit else Decimal(n / 10) + digit
  }

  /** Ten digits, and the eleventh number takes two. */
  lemma Ten()
    ensures Decimal(9) == "9" && Decimal(10) == "10" && DecimalValue("10") == 10
  {
    assert Decimal(10) == Decimal(1) + "0";
    assert "10"[..1] == "1" && "1"[..0] == "";
  }

  /** Printing a number and reading it gives the number back. */
  lemma {:induction false} DecimalRoundTrip(n: nat)
    ensures DecimalValue(Decimal(n)) == n
  {
    var s := Decimal(n);
    if n >= 10 {
      assert s[..|s| - 1] == Decimal(n / 10);
      DecimalRoundTrip(n / 10);
    } else {
      assert s[..|s| - 1] == [];
    }
  }

  lemma {:induction false} DecimalValueMonotone(s: string, k: nat)
    requires k <= |s| && Digits(s)
    ensures DecimalValue(s[..k]) <= DecimalValue(s)
    decreases |s| - k
  {
    if k == |s| {
      assert s[..k] == s;
    } else {
      assert s[..k + 1][..k] == s[..k];
      DecimalValueMonotone(s, k + 1);
    }
  }

  /** Only zero starts with a zero. */
  lemma {:induction false} NoLeadingZero(n: nat)
    ensures Decimal(n)[0] == '0' ==> n == 0
  {
    if n >= 10 {
      NoLeadingZero(n / 10);
    }
  }
}
