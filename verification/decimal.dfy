/**
  Decimal rendering of integers, as JavaScript's template literals print an
  integral number (`${storyId}`, `${index}`), together with the parser that
  inverts it. The round trip is what makes the string keys built from ids and
  positions injective.
 */
module Decimal {

  predicate IsDigit(c: char) {
    '0' <= c <= '9'
  }

  predicate AllDigits(s: string) {
    forall k :: 0 <= k < |s| ==> IsDigit(s[k])
  }

  function DigitChar(d: nat): (c: char)
    requires d < 10
    ensures IsDigit(c)
  {
    ('0' as int + d) as char
  }

  function DigitValue(c: char): nat {
    if IsDigit(c) then c as int - '0' as int else 0
  }

  /** Decimal digits of `n`, most significant first, no leading zeros. */
  function NatToString(n: nat): (s: string)
    ensures |s| > 0
    ensures AllDigits(s)
    ensures s[0] == '0' ==> n == 0
    decreases n
  {
    if n < 10 then [DigitChar(n)] else NatToString(n / 10) + [DigitChar(n % 10)]
  }

  /** Reads a digit string back as a number (the inverse of NatToString). */
  function ParseDigits(s: string): nat
    decreases |s|
  {
    if s == [] then 0 else ParseDigits(s[..|s| - 1]) * 10 + DigitValue(s[|s| - 1])
  }

  lemma {:induction false} ParseNatToString(n: nat)
    ensures ParseDigits(NatToString(n)) == n
    decreases n
  {
    var s := NatToString(n);
    if n < 10 {
      assert s[..|s| - 1] == [];
    } else {
      ParseNatToString(n / 10);
      assert s[..|s| - 1] == NatToString(n / 10);
      assert DigitValue(s[|s| - 1]) == n % 10;
    }
  }

  lemma NatToStringInjective(m: nat, n: nat)
    ensures NatToString(m) == NatToString(n) <==> m == n
  {
    if NatToString(m) == NatToString(n) {
      ParseNatToString(m);
      ParseNatToString(n);
    }
  }

  /** How JavaScript prints an integral number: a leading '-' for negatives. */
  function IntToString(i: int): (s: string)
    ensures |s| > 0
    ensures i >= 0 <==> AllDigits(s)
  {
    if i < 0 then
      var s := "-" + NatToString(-i);
      assert !IsDigit(s[0]);
      s
    else
      NatToString(i)
  }

  function ParseInt(s: string): int {
    if |s| > 0 && s[0] == '-' then -(ParseDigits(s[1..]) as int) else ParseDigits(s)
  }

  lemma ParseIntToString(i: int)
    ensures ParseInt(IntToString(i)) == i
  {
    if i < 0 {
      assert IntToString(i)[1..] == NatToString(-i);
      ParseNatToString(-i);
    } else {
      ParseNatToString(i);
    }
  }

  lemma IntToStringInjective(a: int, b: int)
    ensures IntToString(a) == IntToString(b) <==> a == b
  {
    if IntToString(a) == IntToString(b) {
      ParseIntToString(a);
      ParseIntToString(b);
    }
  }

  /**
    In a string of the shape `x + "-" + t` whose tail `t` is all digits, the
    tail is determined by the whole string: it is what follows the last dash.
   */
  lemma {:induction false} DigitTailAfterDash(x: string, t: string, y: string, u: string)
    requires AllDigits(t) && AllDigits(u)
    requires x + "-" + t == y + "-" + u
    ensures t == u
  {
    var s := x + "-" + t;
    if |t| < |u| {
      DashBeforeShorterTail(x, t, y, u);
    } else if |u| < |t| {
      DashBeforeShorterTail(y, u, x, t);
    }
    assert t == s[|s| - |t|..];
  }

  /** A dash cannot sit where the other string still has a digit of its tail. */
  lemma DashBeforeShorterTail(x: string, t: string, y: string, u: string)
    requires AllDigits(u)
    requires |t| < |u|
    ensures x + "-" + t != y + "-" + u
  {
    var s := x + "-" + t;
    var s' := y + "-" + u;
    if |s| == |s'| {
      assert s[|x|] == '-';
      assert s'[|x|] == u[|u| - |t| - 1];
    }
  }
}
