/** Digit strings and decimal shifts, the arithmetic behind JSON numbers. */
module Decimals {

  predicate IsDigit(c: char) {
    '0' <= c <= '9'
  }

  predicate AllDigits(s: string) {
    forall i :: 0 <= i < |s| ==> IsDigit(s[i])
  }

  function DigitValue(c: char): nat {
    if IsDigit(c) then c as int - '0' as int else 0
  }

  /** The natural number a digit string writes in base ten; the empty string writes 0. */
  function Nat(s: string): nat {
    if s == "" then 0 else 10 * Nat(s[..|s| - 1]) + DigitValue(s[|s| - 1])
  }

  /** The digits are read as their places in this list, the last one of a text as its units. */
  lemma DigitsAreNumerals(s: string, i: nat)
    requires i < 10
    ensures Nat("") == 0 && Nat(s + ["0123456789"[i]]) == 10 * Nat(s) + i
  {
    var c := "0123456789"[i];
    assert (s + [c])[..|s|] == s;
  }

  /** x times ten to the power e, for any integer e. Stepwise, so that it stays linear in x. */
  function Scale(x: real, e: int): real
    decreases if e < 0 then -e else e
  {
    if e == 0 then x
    else if e > 0 then 10.0 * Scale(x, e - 1)
    else Scale(x, e + 1) / 10.0
  }

  lemma {:induction false} ScaleUp(x: real, e: int)
    ensures Scale(x, e + 1) == 10.0 * Scale(x, e)
  {
  }

  lemma {:induction false} ScaleTwice(x: real, a: int, b: int)
    ensures Scale(Scale(x, a), b) == Scale(x, a + b)
    decreases if b < 0 then -b else b
  {
    if b > 0 {
      ScaleTwice(x, a, b - 1);
      ScaleUp(x, a + b - 1);
    } else if b < 0 {
      ScaleTwice(x, a, b + 1);
      ScaleUp(x, a + b);
    }
  }

  lemma {:induction false} ScaleSum(x: real, y: real, e: int)
    ensures Scale(x + y, e) == Scale(x, e) + Scale(y, e)
    decreases if e < 0 then -e else e
  {
    if e > 0 { ScaleSum(x, y, e - 1); } else if e < 0 { ScaleSum(x, y, e + 1); }
  }

  lemma {:induction false} ScaleKeepsOrder(x: real, y: real, e: int)
    ensures x < y <==> Scale(x, e) < Scale(y, e)
    decreases if e < 0 then -e else e
  {
    if e > 0 { ScaleKeepsOrder(x, y, e - 1); } else if e < 0 { ScaleKeepsOrder(x, y, e + 1); }
  }

  lemma {:induction false} ScaleZero(e: int)
    ensures Scale(0.0, e) == 0.0
    decreases if e < 0 then -e else e
  {
    if e > 0 { ScaleZero(e - 1); } else if e < 0 { ScaleZero(e + 1); }
  }

  /** A whole number scaled up is whole, and scaled up at least once it is ten times a whole. */
  lemma {:induction false} ScaleOfNat(n: nat, k: nat) returns (m: nat, tenth: nat)
    ensures Scale(n as real, k) == m as real
    ensures if k == 0 then m == n else m == 10 * tenth
  {
    if k == 0 {
      m, tenth := n, 0;
    } else {
      var t, _ := ScaleOfNat(n, k - 1);
      tenth := t;
      m := 10 * tenth;
      TenTimes(tenth);
    }
  }

  lemma TenTimes(n: nat)
    ensures (10 * n) as real == 10.0 * (n as real)
  {
  }

  lemma {:induction false} NatConcat(a: string, b: string)
    ensures Nat(a + b) as real == Scale(Nat(a) as real, |b|) + Nat(b) as real
  {
    if b == "" {
      assert a + b == a;
    } else {
      NatConcat(a, b[..|b| - 1]);
      assert (a + b)[..|a + b| - 1] == a + b[..|b| - 1];
    }
  }

  lemma {:induction false} LeadingZero(s: string)
    requires s != "" && s[0] == '0'
    ensures Nat(s) == Nat(s[1..])
  {
    if |s| == 1 {
      assert Nat(s[..0]) == 0;
    } else {
      var front := s[..|s| - 1];
      LeadingZero(front);
      assert s[1..][..|s[1..]| - 1] == front[1..];
    }
  }

  /** A digit string that starts with a nonzero digit writes a positive number. */
  lemma {:induction false} NatPositive(s: string)
    requires s != "" && AllDigits(s) && s[0] != '0'
    ensures Nat(s) > 0
  {
    if |s| > 1 { NatPositive(s[..|s| - 1]); }
  }

  /** Without leading zeros, a number is written by one digit string only. */
  lemma {:induction false} NatInjective(s: string, t: string)
    requires s != "" && AllDigits(s) && s[0] != '0'
    requires t != "" && AllDigits(t) && t[0] != '0'
    requires Nat(s) == Nat(t)
    ensures s == t
  {
    var s', t' := s[..|s| - 1], t[..|t| - 1];
    assert Nat(s') == Nat(t') && DigitValue(s[|s| - 1]) == DigitValue(t[|t| - 1]);
    if s' == "" || t' == "" {
      if s' != "" { NatPositive(s'); }
      if t' != "" { NatPositive(t'); }
    } else {
      NatInjective(s', t');
    }
    assert s == s' + [s[|s| - 1]] && t == t' + [t[|t| - 1]];
  }
}
