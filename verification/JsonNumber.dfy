/** The normal form the dashboard resource gives to JSON numbers, and what it decides. */
module JsonNumber {
  import opened Options
  import opened Decimals

  // ---------- the grammar of section 6 of RFC 8259, and the number a text denotes ----------

  datatype ExponentSign = Unsigned | Plus | Minus

  datatype ExponentPart = ExponentPart(marker: char, sign: ExponentSign, digits: string)

  datatype NumberText = NumberText(
    negative: bool, integer: string, fraction: Option<string>, exponent: Option<ExponentPart>)
  {
    ghost predicate WellFormed() {
      && integer != "" && AllDigits(integer) && (integer[0] == '0' ==> |integer| == 1)
      && (fraction.Some? ==> fraction.value != "" && AllDigits(fraction.value))
      && (exponent.Some? ==>
            && exponent.value.marker in {'e', 'E'}
            && exponent.value.digits != "" && AllDigits(exponent.value.digits))
    }

    ghost function MantissaText(): string {
      integer + if fraction.Some? then "." + fraction.value else ""
    }

    ghost function ExponentText(): string {
      match exponent
      case None => "0"
      case Some(e) =>
        (match e.sign case Unsigned => "" case Plus => "+" case Minus => "-") + e.digits
    }

    ghost function UnsignedText(): string {
      MantissaText() + if exponent.Some? then [exponent.value.marker] + ExponentText() else ""
    }

    ghost function Text(): string {
      if negative then "-" + UnsignedText() else UnsignedText()
    }

    ghost function FractionDigits(): string {
      fraction.GetOr("")
    }

    ghost function ExponentValue(): int {
      match exponent
      case None => 0
      case Some(e) => if e.sign.Minus? then -(Nat(e.digits) as int) else Nat(e.digits)
    }

    /** The rational the text denotes: sign, integer part, fraction, power of ten. */
    ghost function Value(): real {
      var fractionPart := Scale(Nat(FractionDigits()) as real, -|FractionDigits()|);
      var unsigned := Scale(Nat(integer) as real + fractionPart, ExponentValue());
      if negative then -unsigned else unsigned
    }
  }

  ghost predicate Parses(n: NumberText, text: string) {
    n.WellFormed() && n.Text() == text
  }

  ghost predicate IsJsonNumber(text: string) {
    exists n :: Parses(n, text)
  }

  ghost function ParseOf(text: string): (n: NumberText)
    requires IsJsonNumber(text)
    ensures Parses(n, text)
  {
    var n :| Parses(n, text); n
  }

  /** The rational a JSON number text denotes. */
  ghost function NumberValue(text: string): real {
    if IsJsonNumber(text) then ParseOf(text).Value() else 0.0
  }

  // ---------- the normal form ----------

  datatype DashboardJsonNumber = DashboardJsonNumber(negative: bool, digits: string, exponent: int)
  {
    /** Zero has one form; any other number has no zero digit at either end. */
    ghost predicate Canonical() {
      || this == DashboardJsonNumber(false, "0", 0)
      || (&& digits != "" && AllDigits(digits)
          && digits[0] != '0' && digits[|digits| - 1] != '0')
    }

    ghost function Value(): real {
      var unsigned := Scale(Nat(digits) as real, exponent);
      if negative then -unsigned else unsigned
    }
  }

  /** Two normal forms are equal exactly when the numbers they denote are. */
  lemma {:induction false} CanonicalFormIsUnique(a: DashboardJsonNumber, b: DashboardJsonNumber)
    requires a.Canonical() && b.Canonical()
    ensures a == b <==> a.Value() == b.Value()
  {
    if a.Value() == b.Value() {
      CanonicalSign(a);
      CanonicalSign(b);
      if a.digits != "0" || b.digits != "0" {
        if a.exponent <= b.exponent { SameDigits(a, b); } else { SameDigits(b, a); }
        NatInjective(a.digits, b.digits);
      }
    }
  }

  lemma {:induction false} CanonicalSign(a: DashboardJsonNumber)
    requires a.Canonical()
    ensures a.digits == "0" <==> a.Value() == 0.0
    ensures a.negative <==> a.Value() < 0.0
    ensures a.digits == "0" ==> a == DashboardJsonNumber(false, "0", 0)
  {
    ScaleZero(a.exponent);
    ScaleKeepsOrder(0.0, Nat(a.digits) as real, a.exponent);
    if a.digits[0] == '0' {
      assert Nat(a.digits[..0]) == 0;
    } else {
      NatPositive(a.digits);
    }
  }

  /** The last digit is nonzero, so the larger exponent cannot hide a factor of ten. */
  lemma {:induction false} SameDigits(a: DashboardJsonNumber, b: DashboardJsonNumber)
    requires a.Canonical() && b.Canonical() && a.digits != "0" && b.digits != "0"
    requires a.exponent <= b.exponent && a.negative == b.negative && a.Value() == b.Value()
    ensures a.exponent == b.exponent && Nat(a.digits) == Nat(b.digits)
  {
    var k := b.exponent - a.exponent;
    var shifted, tenth := ScaleOfNat(Nat(b.digits), k);
    assert Nat(a.digits) == shifted by {
      ScaleTwice(Nat(b.digits) as real, k, a.exponent);
      ScaleKeepsOrder(Nat(a.digits) as real, shifted as real, a.exponent);
      ScaleKeepsOrder(shifted as real, Nat(a.digits) as real, a.exponent);
    }
    var last := |a.digits| - 1;
    assert Nat(a.digits) == 10 * Nat(a.digits[..last]) + DigitValue(a.digits[last]);
  }

  // ---------- the string operations the normalizer uses ----------

  /** The first position of a character of the set, or -1. */
  function IndexAny(s: string, chars: set<char>): (index: int)
    ensures -1 <= index < |s|
    ensures index >= 0 ==> s[index] in chars && forall i :: 0 <= i < index ==> s[i] !in chars
    ensures index < 0 ==> forall i :: 0 <= i < |s| ==> s[i] !in chars
  {
    if s == "" then -1
    else if s[0] in chars then 0
    else
      var rest := IndexAny(s[1..], chars);
      assert forall i :: 1 <= i < |s| ==> s[i] == s[1..][i - 1];
      if rest < 0 then -1 else rest + 1
  }

  function TrimLeftZeros(s: string): (t: string)
    ensures t == "" || t[0] != '0'
    ensures AllDigits(s) ==> AllDigits(t)
    ensures Nat(t) == Nat(s)
  {
    if s != "" && s[0] == '0' then
      assert Nat(s) == Nat(s[1..]) by { LeadingZero(s); }
      TrimLeftZeros(s[1..])
    else s
  }

  function TrimRightZeros(s: string): (t: string)
    ensures t <= s
    ensures t == "" || t[|t| - 1] != '0'
    ensures AllDigits(s) ==> AllDigits(t)
    ensures Nat(s) as real == Scale(Nat(t) as real, |s| - |t|)
  {
    if s != "" && s[|s| - 1] == '0' then TrimRightZeros(s[..|s| - 1]) else s
  }

  /** What big.Int's SetString reads in base ten: at most one sign, then digits only. */
  function ParseInteger(s: string): Option<int> {
    var signed := s != "" && s[0] in {'+', '-'};
    var digits := if signed then s[1..] else s;
    if digits == "" || !AllDigits(digits) then None
    else if signed && s[0] == '-' then Some(-(Nat(digits) as int))
    else Some(Nat(digits))
  }

  /** Accepted are digits, at least one, with at most one sign before them. */
  lemma ParseIntegerAccepts(s: string)
    ensures ParseInteger(s).Some?
            <==> exists digits :: && digits != "" && AllDigits(digits)
                                  && (s == digits || s == "+" + digits || s == "-" + digits)
  {
    if s != "" && s[0] in {'+', '-'} {
      assert s == [s[0]] + s[1..];
      if digits :| digits != "" && AllDigits(digits)
                   && (s == digits || s == "+" + digits || s == "-" + digits) {
        assert IsDigit(digits[0]);
        assert s[1..] == digits;
      }
    } else if digits :| digits != "" && AllDigits(digits)
                        && (s == digits || s == "+" + digits || s == "-" + digits) {
      assert s[0] == digits[0];
    }
  }

  // ---------- the normalizer and the comparison ----------

  ghost function WithoutPlus(s: string): string {
    if s != "" && s[0] == '+' then s[1..] else s
  }

  /** Of any text: what follows the first marker, if there is one, reads as an integer. */
  ghost predicate ReadableExponent(text: string) {
    var i := IndexAny(text, {'e', 'E'});
    i >= 0 ==> ParseInteger(WithoutPlus(text[i + 1..])).Some?
  }

  lemma ExponentIsReadable(text: string, value: string, exponentText: string)
    requires value == if text != "" && text[0] == '-' then text[1..] else text
    requires var index := IndexAny(value, {'e', 'E'});
             exponentText == WithoutPlus(if index >= 0 then value[index + 1..] else "0")
    ensures ParseInteger(exponentText).Some? <==> ReadableExponent(text)
  {
    assert Nat("0"[..0]) == 0;
    if value != text { IndexAfterSign(text, {'e', 'E'}); }
  }

  lemma IndexAfterSign(text: string, chars: set<char>)
    requires text != "" && text[0] !in chars
    ensures var i, j := IndexAny(text, chars), IndexAny(text[1..], chars);
            if j < 0 then i < 0 else i == j + 1 && text[i + 1..] == text[1..][j + 1..]
  {
  }

  /** The sign, the mantissa and the exponent text, with a leading plus dropped from the last. */
  method SplitNumber(text: string)
    returns (negative: bool, mantissa: string, exponentText: string)
    ensures IsJsonNumber(text) ==>
              var n := ParseOf(text);
              && negative == n.negative && mantissa == n.MantissaText()
              && ParseInteger(exponentText) == Some(n.ExponentValue())
    ensures ParseInteger(exponentText).Some? <==> ReadableExponent(text)
  {
    negative := false;
    var value := text;
    if value != "" && value[0] == '-' {
      negative := true;
      value := value[1..];
    }
    mantissa, exponentText := SplitUnsigned(value);
    NumberIsSplit(text, value);
    ExponentIsReadable(text, value, exponentText);
  }

  method SplitUnsigned(value: string) returns (mantissa: string, exponentText: string)
    ensures var index := IndexAny(value, {'e', 'E'});
            && mantissa == (if index >= 0 then value[..index] else value)
            && exponentText == WithoutPlus(if index >= 0 then value[index + 1..] else "0")
  {
    mantissa := value;
    exponentText := "0";
    var index := IndexAny(value, {'e', 'E'});
    if index >= 0 {
      mantissa := value[..index];
      exponentText := value[index + 1..];
    }
    if exponentText != "" && exponentText[0] == '+' {
      exponentText := exponentText[1..];
    }
  }

  lemma NumberIsSplit(text: string, value: string)
    requires value == if text != "" && text[0] == '-' then text[1..] else text
    ensures IsJsonNumber(text) ==>
              var n, index := ParseOf(text), IndexAny(value, {'e', 'E'});
              && (n.negative <==> text != "" && text[0] == '-')
              && n.MantissaText() == (if index >= 0 then value[..index] else value)
              && ParseInteger(WithoutPlus(if index >= 0 then value[index + 1..] else "0"))
                 == Some(n.ExponentValue())
  {
    if IsJsonNumber(text) {
      SignReads(ParseOf(text));
      UnsignedPartsAreRead(ParseOf(text));
    }
  }

  /** On a number of the grammar those are its own parts. */
  lemma UnsignedPartsAreRead(n: NumberText)
    requires n.WellFormed()
    ensures var value := n.UnsignedText();
            var index := IndexAny(value, {'e', 'E'});
            && n.MantissaText() == (if index >= 0 then value[..index] else value)
            && ParseInteger(WithoutPlus(if index >= 0 then value[index + 1..] else "0"))
               == Some(n.ExponentValue())
  {
    SplitAtExponent(n);
    ExponentReads(n);
    assert n.exponent.None? ==> n.ExponentText() == "0";
  }

  /** Normalization accepts every JSON number and keeps the rational it denotes. */
  method NormalizeDashboardJsonNumber(text: string) returns (out: DashboardJsonNumber, ok: bool)
    ensures IsJsonNumber(text) ==> ok && out.Canonical() && out.Value() == NumberValue(text)
    ensures ok <==> ReadableExponent(text)
  {
    ghost var json := IsJsonNumber(text);
    ghost var n := if json then ParseOf(text) else NumberText(false, "0", None, None);
    var negative, mantissa, exponentText := SplitNumber(text);
    out := DashboardJsonNumber(negative, "", 0);
    var parsed := ParseInteger(exponentText);
    if parsed.None? {
      return DashboardJsonNumber(false, "", 0), false;
    }
    out := out.(exponent := parsed.value);
    var fractionLength := 0;
    var index := IndexAny(mantissa, {'.'});
    if index >= 0 {
      fractionLength := |mantissa| - index - 1;
      mantissa := mantissa[..index] + mantissa[index + 1..];
    }
    assert json ==> fractionLength == |n.FractionDigits()|
                    && mantissa == n.integer + n.FractionDigits() by {
      SplitAtPoint(n);
    }
    mantissa := TrimLeftZeros(mantissa);
    if mantissa == "" {
      out := DashboardJsonNumber(false, "0", 0);
      assert json ==> out.Value() == n.Value() by {
        if json { AllZeros(n); }
      }
      return out, true;
    }
    var trimmed := TrimRightZeros(mantissa);
    var trailingZeros := |mantissa| - |trimmed|;
    out := out.(digits := trimmed, exponent := out.exponent - fractionLength + trailingZeros);
    ok := true;
    assert json ==> out.Canonical() && out.Value() == n.Value() by {
      if json { NormalFormValue(n, out); }
    }
  }

  lemma SignReads(n: NumberText)
    requires n.WellFormed()
    ensures var s := n.Text();
            && (s != "" && s[0] == '-' <==> n.negative)
            && n.UnsignedText() == (if n.negative then s[1..] else s)
  {
    assert n.UnsignedText()[0] == n.integer[0];
  }

  lemma SplitAtExponent(n: NumberText)
    requires n.WellFormed()
    ensures var s := n.UnsignedText();
            var index := IndexAny(s, {'e', 'E'});
            if n.exponent.Some?
            then index == |n.MantissaText()| && s[..index] == n.MantissaText()
                 && s[index + 1..] == n.ExponentText()
            else index < 0 && s == n.MantissaText()
  {
    var m, s := n.MantissaText(), n.UnsignedText();
    NoMarkerInMantissa(n);
    if n.exponent.Some? {
      assert s[|m|] == n.exponent.value.marker;
      FirstIndex(s, {'e', 'E'}, |m|);
    }
  }

  lemma NoMarkerInMantissa(n: NumberText)
    requires n.WellFormed()
    ensures var m, s := n.MantissaText(), n.UnsignedText();
            m <= s && forall i :: 0 <= i < |m| ==> s[i] !in {'e', 'E'}
  {
    var m, s := n.MantissaText(), n.UnsignedText();
    assert forall i :: 0 <= i < |m| ==> m[i] !in {'e', 'E'} && s[i] == m[i];
  }

  lemma FirstIndex(s: string, chars: set<char>, index: nat)
    requires index < |s| && s[index] in chars
    requires forall i :: 0 <= i < index ==> s[i] !in chars
    ensures IndexAny(s, chars) == index
  {
  }

  lemma SplitAtPoint(n: NumberText)
    requires n.WellFormed()
    ensures var s := n.MantissaText();
            var index := IndexAny(s, {'.'});
            && (index >= 0 <==> n.fraction.Some?)
            && n.integer == (if index >= 0 then s[..index] else s)
            && n.FractionDigits() == (if index >= 0 then s[index + 1..] else "")
  {
    var s := n.MantissaText();
    assert forall i :: 0 <= i < |n.integer| ==> s[i] == n.integer[i] && s[i] != '.';
    if n.fraction.Some? { assert s[|n.integer|] == '.'; }
  }

  lemma ExponentReads(n: NumberText)
    requires n.WellFormed()
    ensures ParseInteger(WithoutPlus(n.ExponentText())) == Some(n.ExponentValue())
  {
    if n.exponent.Some? {
      var e := n.exponent.value;
      assert !e.sign.Unsigned? ==> n.ExponentText()[1..] == e.digits;
      assert e.sign.Unsigned? ==> n.ExponentText() == e.digits && IsDigit(e.digits[0]);
    } else {
      assert Nat("0"[..0]) == 0;
    }
  }

  lemma AllZeros(n: NumberText)
    requires n.WellFormed() && TrimLeftZeros(n.integer + n.FractionDigits()) == ""
    ensures n.Value() == 0.0 == DashboardJsonNumber(false, "0", 0).Value()
  {
    PointDropped(n);
    ScaleZero(n.ExponentValue() - |n.FractionDigits()|);
    assert Nat("0"[..0]) == 0;
  }

  /** Dropping the zeros in front and the zeros behind moves only the exponent. */
  lemma TrimmedValue(raw: DashboardJsonNumber, out: DashboardJsonNumber)
    requires AllDigits(raw.digits) && out.negative == raw.negative
    requires var mantissa := TrimLeftZeros(raw.digits);
             && mantissa != ""
             && out.digits == TrimRightZeros(mantissa)
             && out.exponent == raw.exponent + (|mantissa| - |out.digits|)
    ensures out.Canonical() && out.Value() == raw.Value()
  {
    TrimmedDigits(TrimLeftZeros(raw.digits), raw.exponent);
  }

  lemma NormalFormValue(n: NumberText, out: DashboardJsonNumber)
    requires n.WellFormed() && out.negative == n.negative
    requires var f := n.FractionDigits();
             var mantissa := TrimLeftZeros(n.integer + f);
             && mantissa != ""
             && out.digits == TrimRightZeros(mantissa)
             && out.exponent == n.ExponentValue() - |f| + (|mantissa| - |out.digits|)
    ensures out.Canonical() && out.Value() == n.Value()
  {
    var f := n.FractionDigits();
    PointDropped(n);
    TrimmedValue(DashboardJsonNumber(n.negative, n.integer + f, n.ExponentValue() - |f|), out);
  }

  lemma TrimmedDigits(mantissa: string, e: int)
    requires mantissa != "" && mantissa[0] != '0' && AllDigits(mantissa)
    ensures var trimmed := TrimRightZeros(mantissa);
            && trimmed != "" && trimmed[0] != '0' && AllDigits(trimmed)
            && Scale(Nat(mantissa) as real, e)
               == Scale(Nat(trimmed) as real, e + (|mantissa| - |trimmed|))
  {
    var trimmed := TrimRightZeros(mantissa);
    NatPositive(mantissa);
    ScaleZero(|mantissa|);
    ScaleTwice(Nat(trimmed) as real, |mantissa| - |trimmed|, e);
  }

  /** Dropping the point is paid for by the exponent. */
  lemma PointDropped(n: NumberText)
    requires n.WellFormed()
    ensures var f := n.FractionDigits();
            && AllDigits(n.integer + f)
            && n.Value()
               == DashboardJsonNumber(n.negative, n.integer + f, n.ExponentValue() - |f|).Value()
  {
    var f, e := n.FractionDigits(), n.ExponentValue();
    var high, low := Nat(n.integer) as real, Nat(f) as real;
    NatConcat(n.integer, f);
    ScaleTwice(Scale(high, |f|) + low, -|f|, e);
    ScaleSum(Scale(high, |f|), low, -|f|);
    ScaleTwice(high, |f|, -|f|);
  }

  /** The grammar is unambiguous, so a text denotes one number. */
  lemma NumberTextIsUnambiguous(n: NumberText, m: NumberText)
    requires n.WellFormed() && m.WellFormed() && n.Text() == m.Text()
    ensures n == m
  {
    SignReads(n);
    SignReads(m);
    assert n.UnsignedText() == m.UnsignedText();
    SplitAtExponent(n);
    SplitAtExponent(m);
    assert n.MantissaText() == m.MantissaText() && n.exponent.Some? == m.exponent.Some?;
    SameMantissa(n, m);
    if n.exponent.Some? {
      var i := |n.MantissaText()|;
      assert n.UnsignedText()[i] == n.exponent.value.marker;
      assert m.UnsignedText()[i] == m.exponent.value.marker;
      SameExponent(n, m);
    }
  }

  lemma SameMantissa(n: NumberText, m: NumberText)
    requires n.WellFormed() && m.WellFormed() && n.MantissaText() == m.MantissaText()
    ensures n.integer == m.integer && n.fraction == m.fraction
  {
    SplitAtPoint(n);
    SplitAtPoint(m);
  }

  lemma SameExponent(n: NumberText, m: NumberText)
    requires n.WellFormed() && n.exponent.Some? && m.WellFormed() && m.exponent.Some?
    requires n.ExponentText() == m.ExponentText()
    ensures n.exponent.value.sign == m.exponent.value.sign
    ensures n.exponent.value.digits == m.exponent.value.digits
  {
    ExponentSignReads(n);
    ExponentSignReads(m);
  }

  lemma ExponentSignReads(n: NumberText)
    requires n.WellFormed() && n.exponent.Some?
    ensures var e, s := n.exponent.value, n.ExponentText();
            && s != ""
            && (s[0] == '+' <==> e.sign.Plus?) && (s[0] == '-' <==> e.sign.Minus?)
            && e.digits == (if e.sign.Unsigned? then s else s[1..])
  {
    assert IsDigit(n.exponent.value.digits[0]);
  }

  /** Two number texts are equivalent exactly when they denote the same rational. */
  method EquivalentDashboardJsonNumber(left: string, right: string) returns (equal: bool)
    ensures IsJsonNumber(left) && IsJsonNumber(right) ==>
              (equal <==> NumberValue(left) == NumberValue(right))
    ensures equal ==> ReadableExponent(left) && ReadableExponent(right)
  {
    var leftNumber, ok := NormalizeDashboardJsonNumber(left);
    if !ok {
      return false;
    }
    var rightNumber;
    rightNumber, ok := NormalizeDashboardJsonNumber(right);
    if !ok {
      return false;
    }
    equal := leftNumber == rightNumber;
    if IsJsonNumber(left) && IsJsonNumber(right) {
      CanonicalFormIsUnique(leftNumber, rightNumber);
    }
  }
}
