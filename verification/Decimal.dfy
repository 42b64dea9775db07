/** Decimal rendering of Go's `%d` and `%v` for non-negative integers. */
module Decimal {

  function Digit(d: nat): char
    requires d < 10
  {
    "0123456789"[d]
  }

  function Dec(n: nat): (s: string)
    ensures |s| >= 1
    ensures forall c :: c in s ==> c in "0123456789"
  {
    if n < 10 then [Digit(n)] else Dec(n / 10) + [Digit(n % 10)]
  }

  /** A rendering never starts with a zero, except that of zero itself. */
  lemma {:induction false} NoLeadingZero(n: nat)
    requires n > 0
    ensures Dec(n)[0] != '0'
  {
    if n >= 10 {
      NoLeadingZero(n / 10);
    }
  }

  lemma LastInjective(s: string, c: char, t: string, d: char)
    requires s + [c] == t + [d]
    ensures s == t && c == d
  {
    assert (s + [c])[|s|] == (t + [d])[|t|];
    assert (s + [c])[..|s|] == s && (t + [d])[..|t|] == t;
  }

  lemma {:induction false} Injective(a: nat, b: nat)
    requires Dec(a) == Dec(b)
    ensures a == b
  {
    if a < 10 && b < 10 {
    } else if a >= 10 && b >= 10 {
      LastInjective(Dec(a / 10), Digit(a % 10), Dec(b / 10), Digit(b % 10));
      Injective(a / 10, b / 10);
    } else {
      assert false;
    }
  }

  /** With one-digit second parts, the last digit separates the two numbers. */
  lemma ShortTailInjective(a: nat, b: nat, c: nat, d: nat)
    requires b < 10 && d < 10
    requires Dec(a) + Dec(b) == Dec(c) + Dec(d)
    ensures a == c && b == d
  {
    LastInjective(Dec(a), Digit(b), Dec(c), Digit(d));
    Injective(a, c);
  }

  /** With first parts from 1 to 10 there is one way to read the concatenation, for 10 ends in a
      zero that no second part can start with unless it is the number zero. */
  lemma ShortHeadInjective(a: nat, b: nat, c: nat, d: nat)
    requires 1 <= a <= 10 && 1 <= c <= 10
    requires Dec(a) + Dec(b) == Dec(c) + Dec(d)
    ensures a == c && b == d
  {
    if a == 10 && c != 10 {
      TenIsNotADigit(b, c, d);
    } else if c == 10 && a != 10 {
      TenIsNotADigit(d, a, b);
    } else {
      var x, y := Dec(a) + Dec(b), Dec(c) + Dec(d);
      assert |Dec(a)| == |Dec(c)|;
      assert x[..|Dec(a)|] == Dec(a) && y[..|Dec(c)|] == Dec(c);
      assert x[|Dec(a)|..] == Dec(b) && y[|Dec(c)|..] == Dec(d);
      Injective(a, c);
      Injective(b, d);
    }
  }

  lemma TenIsNotADigit(b: nat, c: nat, d: nat)
    requires 1 <= c < 10
    ensures Dec(10) + Dec(b) != Dec(c) + Dec(d)
  {
    assert Dec(10) == Dec(1) + Dec(0) == "10";
    if Dec(10) + Dec(b) == Dec(c) + Dec(d) {
      var x, y := Dec(10) + Dec(b), Dec(c) + Dec(d);
      assert x[1] == '0' && y[1] == Dec(d)[0];
      assert |Dec(d)| >= 2;
      NoLeadingZero(d);
    }
  }
}
