/** itoa of 0812_string.md, and reading its output back. */
module Itoa {

  function Digit(d: nat): char
    requires d < 10
  {
    48 as char + d as char
  }

  predicate IsDigit(c: char) { '0' <= c <= '9' }

  /** The decimal digits of n, most significant first; none for zero. */
  function Digits(n: nat): string {
    if n == 0 then "" else Digits(n / 10) + [Digit(n % 10)]
  }

  /** Reading a string of digits. */
  function ParseNat(s: string): int {
    if s == "" then 0 else 10 * ParseNat(s[..|s| - 1]) + (s[|s| - 1] as int - 48)
  }

  /** Reading an optionally signed decimal. */
  function ParseInt(s: string): int {
    if s != "" && s[0] == '-' then -ParseNat(s[1..]) else ParseNat(s)
  }

  lemma {:induction false} DigitsRead(n: nat)
    ensures ParseNat(Digits(n)) == n
    ensures forall k :: 0 <= k < |Digits(n)| ==> IsDigit(Digits(n)[k])
    ensures n > 0 ==> Digits(n) != "" && Digits(n)[0] != '0'
  {
    if n > 0 {
      DigitsRead(n / 10);
      var init, last := Digits(n / 10), Digit(n % 10);
      assert (init + [last])[..|init|] == init;
      if n < 10 {
        assert Digits(0) == "" && init + [last] == [last];
      }
    }
  }

  /** The text `itoa` is to produce. */
  function Text(num: int): string {
    if num == 0 then "0" else if num < 0 then "-" + Digits(-num) else Digits(num)
  }

  lemma NoDigits()
    ensures Digits(0) == ""
  {
  }

  /** Moving the last digit from the number to the front of the text. */
  lemma OneDigit(n: nat, s: string)
    requires n > 0
    ensures Digits(n / 10) + ([Digit(n % 10)] + s) == Digits(n) + s
  {
    hide Digit;
  }

  method ItoA(num: int) returns (s: string)
    ensures s == Text(num)
  {
    hide Digit, Digits;
    NoDigits();
    s := "";
    var n := num;
    var negative := false;
    if n < 0 {
      negative := true;
      n := n * -1;
    } else if n == 0 {
      s := "0";
    }
    ghost var whole: nat := n;
    while n != 0
      invariant 0 <= n
      invariant whole > 0 ==> Digits(n) + s == Digits(whole)
      invariant whole == 0 ==> n == 0 && s == "0"
      decreases n
    {
      var temp := n % 10;
      OneDigit(n, s);
      n := n / 10;
      s := [Digit(temp)] + s;
    }
    if negative {
      s := "-" + s;
    }
  }

  lemma ZeroReadsBack()
    ensures ParseNat("0") == 0
  {
    assert "0"[..0] == "";
  }

  lemma NegativeReadsBack(num: int)
    requires num < 0
    ensures ParseInt(Text(num)) == num && Text(num)[0] == '-' && !("-0" <= Text(num))
    ensures forall k :: 1 <= k < |Text(num)| ==> IsDigit(Text(num)[k])
  {
    hide Digits, Digit, ParseNat;
    DigitsRead(-num);
    assert Text(num)[1..] == Digits(-num);
    assert "-0"[1] == '0';
  }

  /**
   Reading the output back gives the number; there is a minus sign exactly for negative numbers,
   and no leading zero except in "0" itself.
   */
  lemma TextReadsBack(num: int)
    ensures ParseInt(Text(num)) == num
    ensures Text(num) != "" && (Text(num)[0] == '-' <==> num < 0)
    ensures forall k :: (if num < 0 then 1 else 0) <= k < |Text(num)| ==> IsDigit(Text(num)[k])
    ensures num != 0 ==> Text(num)[0] != '0' && !("-0" <= Text(num))
    ensures num == 0 ==> Text(num) == "0"
  {
    hide Digits, Digit, ParseNat;
    if num > 0 {
      DigitsRead(num);
      assert '-' !in Digits(num);
    } else if num < 0 {
      NegativeReadsBack(num);
    } else {
      ZeroReadsBack();
    }
  }

  lemma TenMore(n: nat, d: nat)
    requires d < 10
    ensures (10 * n + d) / 10 == n && (10 * n + d) % 10 == d
  {
  }

  lemma DigitsUnfold(n: nat)
    requires n > 0
    ensures Digits(n) == Digits(n / 10) + [Digit(n % 10)]
  {
    hide Digit;
  }

  lemma DigitIs(d: nat)
    requires d < 10
    ensures Digit(d) == "0123456789"[d]
  {
  }

  /**
   The text is the usual decimal one: single digits stand for themselves, one more digit is appended
   to the text of the number before it, and a minus sign goes in front.
   */
  lemma TextIsDecimal(n: nat, d: nat)
    requires d < 10
    ensures Text(d) == ["0123456789"[d]]
    ensures n > 0 ==> Text(10 * n + d) == Text(n) + ["0123456789"[d]]
    ensures n > 0 ==> Text(-(n as int)) == "-" + Text(n)
  {
    hide Digits, Digit;
    DigitIs(d);
    NoDigits();
    TenMore(0, d);
    TenMore(n, d);
    if d > 0 {
      DigitsUnfold(d);
    }
    if n > 0 {
      DigitsUnfold(10 * n + d);
    }
  }
}
