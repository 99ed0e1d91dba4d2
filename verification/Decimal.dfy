/** Decimal numbers as Rust's Display prints them, shared by the unit and MIR text forms. */
module Decimal {

  predicate IsDigit(c: char) { '0' <= c <= '9' }

  predicate AllDigits(s: string) { forall i :: 0 <= i < |s| ==> IsDigit(s[i]) }

  function Digit(d: nat): (c: char)
    requires d < 10
    ensures IsDigit(c) && c as int - 48 == d
  {
    (48 + d) as char
  }

  function Dec(n: nat): (s: string)
    ensures |s| >= 1 && AllDigits(s)
  {
    if n < 10 then [Digit(n)] else Dec(n / 10) + [Digit(n % 10)]
  }

  /** The number a run of digits denotes. */
  function Value(s: string): nat
    requires AllDigits(s)
  {
    if s == [] then 0 else 10 * Value(s[..|s| - 1]) + (s[|s| - 1] as int - 48)
  }

  lemma {:induction false} ValueOfDec(n: nat)
    ensures Value(Dec(n)) == n
  {
    if n >= 10 {
      ValueOfDec(n / 10);
      assert Dec(n)[..|Dec(n)| - 1] == Dec(n / 10);
    }
  }

  /** The numeral has no leading zero, and is the only one without that has its value. */
  lemma {:induction false} OnlyNumeral(s: string)
    requires s != "" && AllDigits(s) && (|s| > 1 ==> s[0] != '0')
    ensures Dec(Value(s)) == s
  {
    var last := |s| - 1;
    var front, d := s[..last], s[last] as int - 48;
    assert s == front + [s[last]];
    if last == 0 {
      assert Value(front) == 0;
    } else {
      OnlyNumeral(front);
      ValueIsPositive(front);
      assert Value(s) / 10 == Value(front) && Value(s) % 10 == d;
    }
  }

  lemma {:induction false} ValueIsPositive(s: string)
    requires s != "" && AllDigits(s) && s[0] != '0'
    ensures Value(s) > 0
  {
    if |s| > 1 {
      ValueIsPositive(s[..|s| - 1]);
    }
  }

  lemma {:induction false} NoLeadingZero(n: nat)
    ensures |Dec(n)| > 1 ==> Dec(n)[0] != '0'
  {
    if n >= 10 {
      NoLeadingZero(n / 10);
    }
  }

  /** Signed numbers: a minus sign before the digits. */
  function DecInt(i: int): (s: string)
    ensures |s| >= 1
    ensures forall k :: 0 <= k < |s| ==> IsDigit(s[k]) || s[k] == '-'
  {
    if i < 0 then "-" + Dec(-i) else Dec(i)
  }

  lemma {:induction false} DecInjective(a: nat, b: nat)
    ensures Dec(a) == Dec(b) <==> a == b
  {
    ValueOfDec(a);
    ValueOfDec(b);
  }

  lemma {:induction false} DecIntInjective(a: int, b: int)
    requires DecInt(a) == DecInt(b)
    ensures a == b
  {
    assert IsDigit(DecInt(a)[0]) <==> a >= 0;
    assert IsDigit(DecInt(b)[0]) <==> b >= 0;
    if a >= 0 {
      DecInjective(a, b);
    } else {
      assert DecInt(a)[1..] == Dec(-a) && DecInt(b)[1..] == Dec(-b);
      DecInjective(-a, -b);
    }
  }
}
