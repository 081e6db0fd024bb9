/** Decimal numerals, as strconv and fmt write and read them. */
module Decimals {
  predicate IsDigit(c: char)
  {
    '0' <= c <= '9'
  }

  function Digit(n: nat): (c: char)
    requires n < 10
    ensures IsDigit(c)
  {
    (n + '0' as int) as char
  }

  function Digits(n: nat): (s: string)
    ensures |s| > 0 && forall i :: 0 <= i < |s| ==> IsDigit(s[i])
  {
    if n < 10 then [Digit(n)] else Digits(n / 10) + [Digit(n % 10)]
  }

  predicate IsNumeral(s: string)
  {
    |s| > 0 && forall i :: 0 <= i < |s| ==> IsDigit(s[i])
  }

  function Value(s: string): nat
    requires forall i :: 0 <= i < |s| ==> IsDigit(s[i])
  {
    if s == [] then 0
    else
      var last := s[|s| - 1];
      assert IsDigit(last);
      10 * Value(s[..|s| - 1]) + (last as int - '0' as int)
  }

  function Pow10(k: nat): nat
  {
    if k == 0 then 1 else 10 * Pow10(k - 1)
  }

  lemma {:induction false} ValueOfDigits(n: nat)
    ensures IsNumeral(Digits(n)) && Value(Digits(n)) == n
  {
    var s := Digits(n);
    if n >= 10 {
      ValueOfDigits(n / 10);
      assert s[..|s| - 1] == Digits(n / 10);
    } else {
      assert s[..0] == [];
    }
  }

  /** Only leading zeros can make a numeral differ from the one that is written. */
  lemma {:induction false} DigitsOfValue(s: string)
    requires IsNumeral(s)
    ensures Digits(Value(s)) == s <==> |s| == 1 || s[0] != '0'
    ensures |s| > 1 && s[0] != '0' ==> Value(s) >= 10
    decreases |s|
  {
    var init, last := s[..|s| - 1], s[|s| - 1];
    assert s == init + [last];
    if |s| > 1 {
      DigitsOfValue(init);
      assert Value(s) / 10 == Value(init) && Digit(Value(s) % 10) == last;
      if |init| == 1 {
        assert init[..0] == [] && Value(init) == init[0] as int - '0' as int;
      }
      if Value(s) < 10 {
        assert |Digits(Value(s))| == 1;
      }
    } else {
      assert init == [];
    }
  }

  lemma {:induction false} ZerosInFront(zeros: nat, s: string)
    requires IsNumeral(s)
    ensures IsNumeral(seq(zeros, _ => '0') + s) && Value(seq(zeros, _ => '0') + s) == Value(s)
    decreases |s|
  {
    var front := seq(zeros, _ => '0');
    var all := front + s;
    assert all[..|all| - 1] == front + s[..|s| - 1];
    if |s| > 1 {
      ZerosInFront(zeros, s[..|s| - 1]);
    } else {
      assert all[..|all| - 1] == front && s[..0] == [];
      OnlyZeros(zeros);
    }
  }

  lemma {:induction false} OnlyZeros(zeros: nat)
    ensures Value(seq(zeros, _ => '0')) == 0
  {
    if zeros > 0 {
      var front := seq(zeros, _ => '0');
      assert front[..zeros - 1] == seq(zeros - 1, _ => '0');
      OnlyZeros(zeros - 1);
    }
  }

  lemma {:induction false} DigitsShort(n: nat, k: nat)
    requires k > 0 && n < Pow10(k)
    ensures |Digits(n)| <= k
    decreases k
  {
    if n >= 10 {
      assert k > 1;
      DigitsShort(n / 10, k - 1);
    }
  }
}
