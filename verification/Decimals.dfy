/** Decimal digits, as every language here prints whole numbers. */
module Decimals {
  predicate AllDigits(s: string) {
    forall i :: 0 <= i < |s| ==> '0' <= s[i] <= '9'
  }

  function Decimal(n: nat): (s: string)
    ensures s != "" && AllDigits(s)
  {
    (if n < 10 then "" else Decimal(n / 10)) + ['0' + (n % 10) as char]
  }

  /** The number a run of digits spells. */
  function DigitsValue(s: string): nat
    requires AllDigits(s)
  {
    if s == "" then 0 else 10 * DigitsValue(s[..|s| - 1]) + (s[|s| - 1] - '0') as int
  }

  lemma {:induction false} DigitsOfDecimal(n: nat)
    ensures DigitsValue(Decimal(n)) == n
  {
    var s := Decimal(n);
    if n >= 10 {
      DigitsOfDecimal(n / 10);
      assert s[..|s| - 1] == Decimal(n / 10);
    } else {
      assert s[..|s| - 1] == "";
    }
  }

  /** The most significant digit comes first. */
  lemma DecimalOfAYear()
    ensures Decimal(2048) == "2048" && DigitsValue("2048") == 2048
  {
    assert Decimal(2) == "2" && Decimal(20) == "20" && Decimal(204) == "204";
    DigitsOfDecimal(2048);
  }

  lemma DecimalIsInjective(m: nat, n: nat)
    ensures Decimal(m) == Decimal(n) <==> m == n
  {
    DigitsOfDecimal(m);
    DigitsOfDecimal(n);
  }

  function Zeros(n: nat): (s: string)
    ensures |s| == n && AllDigits(s)
  {
    if n == 0 then "" else Zeros(n - 1) + "0"
  }

  lemma {:induction false} ZerosAreNothing(n: nat)
    ensures DigitsValue(Zeros(n)) == 0
  {
    if n > 0 {
      ZerosAreNothing(n - 1);
      assert Zeros(n)[..n - 1] == Zeros(n - 1);
    }
  }

  lemma {:induction false} ZerosDoNotCount(n: nat, s: string)
    requires AllDigits(s)
    ensures AllDigits(Zeros(n) + s) && DigitsValue(Zeros(n) + s) == DigitsValue(s)
  {
    var all := Zeros(n) + s;
    if s == "" {
      ZerosAreNothing(n);
      assert all == Zeros(n);
    } else {
      var init := s[..|s| - 1];
      ZerosDoNotCount(n, init);
      hide Zeros;
      assert all[..|all| - 1] == Zeros(n) + init;
      assert all[|all| - 1] == s[|s| - 1];
    }
  }

  /** Zeros in front up to a width, as a format string asks for. */
  function Padded(n: nat, width: nat): (s: string)
    ensures |s| >= width
  {
    var digits := Decimal(n);
    if |digits| < width then Zeros(width - |digits|) + digits else digits
  }

  lemma DigitsOfPadded(n: nat, width: nat)
    ensures AllDigits(Padded(n, width)) && DigitsValue(Padded(n, width)) == n
  {
    DigitsOfDecimal(n);
    var digits := Decimal(n);
    hide Decimal, Zeros, DigitsValue, AllDigits;
    if |digits| < width {
      ZerosDoNotCount(width - |digits|, digits);
    }
  }

  /** Numbers that fit the width are printed at exactly that width. */
  lemma TwoDigits(n: nat)
    requires n < 100
    ensures |Padded(n, 2)| == 2
  {
    if n >= 10 {
      assert |Decimal(n / 10)| == 1;
    }
  }
}
