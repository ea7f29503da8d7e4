/**
 What `double.tryParse` reads, independently of how it reads it: the texts of the numbers it
 accepts, and the number each stands for.
 */
module Numerals {
  import opened Text
  import opened Amounts

  datatype Sign = NoSign | Plus | Minus

  datatype Exponent = Exponent(letter: char, sign: Sign, digits: string)

  // An optional sign, digits, optionally a dot and digits, optionally an exponent.
  datatype Numeral = Numeral(sign: Sign, whole: string, frac: Option<string>, exponent: Option<Exponent>)

  function SignText(sign: Sign): string {
    match sign
    case NoSign => ""
    case Plus => "+"
    case Minus => "-"
  }

  function Fraction(n: Numeral): string { n.frac.GetOr("") }

  predicate WellFormed(n: Numeral) {
    && AllDigits(n.whole) && AllDigits(Fraction(n)) && n.whole + Fraction(n) != ""
    && (n.exponent.Some? ==>
          n.exponent.value.letter in "eE" && n.exponent.value.digits != "" && AllDigits(n.exponent.value.digits))
  }

  function MantissaText(n: Numeral): string {
    n.whole + if n.frac.Some? then "." + n.frac.value else ""
  }

  function ExponentText(e: Exponent): string { SignText(e.sign) + e.digits }

  function Written(n: Numeral): string {
    SignText(n.sign) + MantissaText(n)
    + if n.exponent.Some? then [n.exponent.value.letter] + ExponentText(n.exponent.value) else ""
  }

  // ----- the number -----

  function Reciprocal(x: real): (r: real)
    requires x > 0.0
    ensures r > 0.0
  {
    1.0 / x
  }

  // 10^k, for any integer.
  function Power(k: int): (p: real)
    ensures p > 0.0
  {
    if k >= 0 then Pow10(k) as real else Reciprocal(Pow10(-k) as real)
  }

  // units / 10^f * 10^e
  function Scaled(units: nat, f: nat, e: int): real {
    units as real / Pow10(f) as real * Power(e)
  }

  function Signed(sign: Sign, x: real): real { if sign == Minus then -x else x }

  function ExponentOf(n: Numeral): int
    requires WellFormed(n)
  {
    if n.exponent.None? then 0
    else if n.exponent.value.sign == Minus then -(ReadDigits(n.exponent.value.digits) as int)
    else ReadDigits(n.exponent.value.digits)
  }

  function AllOf(n: Numeral): (digits: string)
    requires WellFormed(n)
    ensures AllDigits(digits)
  {
    n.whole + Fraction(n)
  }

  /** The digits as one number, divided by ten for each digit after the dot, times the power of ten, with the sign. */
  function Meaning(n: Numeral): real
    requires WellFormed(n)
  {
    Signed(n.sign, Scaled(ReadDigits(AllOf(n)), |Fraction(n)|, ExponentOf(n)))
  }

  lemma {:induction false} Pow10Add(a: nat, b: nat)
    ensures Pow10(a + b) == Pow10(a) * Pow10(b)
  {
    if a > 0 {
      Pow10Add(a - 1, b);
    }
  }

  lemma RealAdd(a: nat, b: nat)
    ensures Pow10(a + b) as real == Pow10(a) as real * Pow10(b) as real
  {
    hide Pow10;
    Pow10Add(a, b);
    ProductAsReal(Pow10(a), Pow10(b));
  }

  lemma ProductAsReal(a: int, b: int)
    ensures (a * b) as real == a as real * b as real
  {
  }

  lemma Inverse(x: real)
    requires x > 0.0
    ensures Reciprocal(x) * x == 1.0
  {
  }

  lemma TimesOne(a: real, b: real)
    requires b == 1.0
    ensures a * b == a && b * a == a
  {
  }

  lemma Regroup(x: real, q: real, y: real, r: real)
    ensures x * q * (y * r) == x * (r * q) * y
  {
  }

  lemma CancelFactor(p: real, q: real, r: real)
    requires q > 0.0 && p == r * q
    ensures Reciprocal(q) * p == r
  {
    hide Reciprocal;
    Inverse(q);
    assert Reciprocal(q) * (r * q) == r * (Reciprocal(q) * q);
  }

  lemma CancelInverse(p: real, q: real, r: real)
    requires p > 0.0 && q > 0.0 && p == r * q
    ensures r > 0.0 && Reciprocal(p) * q == Reciprocal(r)
  {
    hide Reciprocal;
    assert r > 0.0 by { assert r <= 0.0 ==> r * q <= 0.0; }
    Inverse(p);
    Inverse(r);
    var x, y := Reciprocal(p), Reciprocal(r);
    TimesOne(x * q, y * r);
    Regroup(x, q, y, r);
    TimesOne(y, x * p);
  }

  lemma PowerUp(k: nat)
    ensures Power(k) == Pow10(k) as real
  {
  }

  lemma PowerDown(k: int)
    requires k < 0
    ensures Power(k) == Reciprocal(Pow10(-k) as real)
  {
  }

  // Shifting a power of ten by digits after the dot.
  lemma PowerShift(f: nat, e: int)
    ensures Power(e - f) * Pow10(f) as real == Power(e)
  {
    hide *;
    var k := e - f;
    if k >= 0 {
      RealAdd(k, f);
      PowerUp(k);
      PowerUp(e);
    } else if e >= 0 {
      RealAdd(e, -k);
      PowerDown(k);
      PowerUp(e);
      CancelFactor(Pow10(f) as real, Pow10(-k) as real, Pow10(e) as real);
    } else {
      RealAdd(-e, f);
      PowerDown(k);
      PowerDown(e);
      CancelInverse(Pow10(-k) as real, Pow10(f) as real, Pow10(-e) as real);
    }
  }

  lemma DivideShift(u: real, p: real, q: real, r: real)
    requires p > 0.0 && q * p == r
    ensures u / p * r == u * q
  {
    Inverse(p);
    OverPower(u, p);
    hide Reciprocal;
    var x := Reciprocal(p);
    assert u * x * (q * p) == u * q * (x * p);
  }

  lemma ScaledShift(units: nat, f: nat, e: int)
    ensures Scaled(units, f, e) == units as real * Power(-(f - e))
  {
    hide Pow10, Power;
    PowerShift(f, e);
    assert e - f == -(f - e);
    DivideShift(units as real, Pow10(f) as real, Power(-(f - e)), Power(e));
  }

  lemma NormaliseValue(sign: Sign, units: nat, f: nat, e: int)
    ensures Normalise(sign == Minus, units, f - e).Value() ==
            Signed(sign, Scaled(units, f, e))
  {
    hide *;
    ScaledShift(units, f, e);
    NormaliseShift(sign, units, f - e, Scaled(units, f, e));
  }

  lemma NormaliseShift(sign: Sign, units: nat, scale: int, x: real)
    requires x == units as real * Power(-scale)
    ensures Normalise(sign == Minus, units, scale).Value() == Signed(sign, x)
  {
    hide Pow10, Strip;
    if scale < 1 {
      TenAt(-scale);
      TenTimes(units, Pow10(-scale));
    } else {
      StripValue(sign == Minus, units, scale);
      OverPower(units as real, Pow10(scale) as real);
    }
  }

  lemma TenAt(k: nat)
    ensures Pow10(1 + k) == 10 * Pow10(k) && Pow10(1) == 10
  {
  }

  lemma OverPower(u: real, p: real)
    requires p > 0.0
    ensures u / p == u * Reciprocal(p)
  {
  }

  lemma TenTimes(units: nat, p: nat)
    ensures (units * (10 * p)) as real / 10.0 == units as real * p as real
  {
  }

  // ----- the parser reads every such text as that number -----

  lemma ParsesExponent(e: Exponent)
    requires e.digits != "" && AllDigits(e.digits)
    ensures ParseExponent(ExponentText(e)) ==
            Some(if e.sign == Minus then -(ReadDigits(e.digits) as int) else ReadDigits(e.digits) as int)
  {
    var s := ExponentText(e);
    assert IsDigit(e.digits[0]);
    assert e.sign != NoSign ==> s[1..] == e.digits;
    assert e.sign == NoSign ==> s == e.digits;
  }

  lemma ParsesMantissa(negative: bool, n: Numeral, exponent: int)
    requires WellFormed(n)
    ensures ParseMantissa(negative, MantissaText(n), exponent) ==
            Some(Normalise(negative, ReadDigits(AllOf(n)), |Fraction(n)| - exponent))
  {
    hide ReadDigits, Normalise;
    NoDot(n.whole);
    if n.frac.Some? {
      NoDot(n.frac.value);
      assert MantissaText(n) == n.whole + ['.'] + n.frac.value;
      SplitPrefix(n.whole, n.frac.value, '.');
      SplitWhole(n.frac.value, '.');
      assert Split(MantissaText(n), '.') == [n.whole, n.frac.value];
    } else {
      assert MantissaText(n) == n.whole;
      SplitWhole(n.whole, '.');
      assert Split(MantissaText(n), '.') == [n.whole];
    }
    hide Split;
  }

  lemma NoDot(s: string)
    requires AllDigits(s)
    ensures forall c :: c in s ==> IsDigit(c)
    ensures '.' !in s && 'e' !in s && 'E' !in s
  {
  }

  // What is left after the sign.
  function Unsigned(n: Numeral): string {
    MantissaText(n) + if n.exponent.Some? then [n.exponent.value.letter] + ExponentText(n.exponent.value) else ""
  }

  lemma SignIsRead(n: Numeral)
    requires WellFormed(n)
    ensures var t := Written(n);
      && t != "" && (t[0] == '-' <==> n.sign == Minus)
      && (if t[0] == '-' || t[0] == '+' then t[1..] else t) == Unsigned(n)
  {
    var rest := Unsigned(n);
    assert rest != "" && (IsDigit(rest[0]) || rest[0] == '.') by {
      if n.whole != "" { assert rest[0] == n.whole[0]; } else { assert rest[0] == '.'; }
    }
    assert Written(n) == SignText(n.sign) + rest;
    if n.sign == NoSign { assert Written(n) == rest; }
  }

  lemma MantissaChars(n: Numeral)
    requires WellFormed(n)
    ensures 'e' !in MantissaText(n) && 'E' !in MantissaText(n)
  {
    NoDot(n.whole);
    NoDot(Fraction(n));
  }

  lemma ExponentChars(e: Exponent)
    requires AllDigits(e.digits)
    ensures 'e' !in ExponentText(e) && 'E' !in ExponentText(e)
  {
    NoDot(e.digits);
  }

  lemma ExponentIsSplit(n: Numeral)
    requires WellFormed(n)
    ensures var body := Unsigned(n); var parts := if 'e' in body then Split(body, 'e') else Split(body, 'E');
            parts == if n.exponent.Some? then [MantissaText(n), ExponentText(n.exponent.value)] else [body]
  {
    MantissaChars(n);
    hide Split, MantissaText, ExponentText;
    var body := Unsigned(n);
    if n.exponent.Some? {
      var e := n.exponent.value;
      ExponentChars(e);
      assert body == MantissaText(n) + [e.letter] + ExponentText(e);
      SplitPrefix(MantissaText(n), ExponentText(e), e.letter);
      SplitWhole(ExponentText(e), e.letter);
    } else {
      assert body == MantissaText(n);
      SplitWhole(body, 'E');
    }
  }

  lemma ParsesWritten(s: string, n: Numeral)
    requires WellFormed(n) && Trim(s) == Written(n)
    ensures TryParse(s) ==
            Some(Normalise(n.sign == Minus, ReadDigits(AllOf(n)), |Fraction(n)| - ExponentOf(n)))
  {
    hide Trim, Split, ParseMantissa, ParseExponent, Normalise, ReadDigits, MantissaText, ExponentText, Written;
    SignIsRead(n);
    ExponentIsSplit(n);
    ParsesMantissa(n.sign == Minus, n, ExponentOf(n));
    assert n.exponent.None? ==> Unsigned(n) == MantissaText(n);
    if n.exponent.Some? { ParsesExponent(n.exponent.value); }
  }

  // ----- and reads nothing else -----

  lemma SameMantissaReads(s: string, negative: bool, exponent: int)
    ensures ParseMantissa(negative, s, exponent).Some? <==> ParseMantissa(false, s, 0).Some?
  {
    hide Split, Normalise, ReadDigits;
  }

  lemma MantissaRead(s: string) returns (n: Numeral)
    requires ParseMantissa(false, s, 0).Some?
    ensures WellFormed(n) && n.exponent == None && n.sign == NoSign && MantissaText(n) == s
  {
    hide ReadDigits, Normalise;
    var parts := Split(s, '.');
    JoinOfSplit(s, '.');
    hide Split;
    if |parts| == 2 {
      var all := parts[0] + parts[1];
      assert AllDigits(parts[0]) by { assert forall i :: 0 <= i < |parts[0]| ==> all[i] == parts[0][i]; }
      assert AllDigits(parts[1]) by { assert forall i :: 0 <= i < |parts[1]| ==> all[|parts[0]| + i] == parts[1][i]; }
      n := Numeral(NoSign, parts[0], Some(parts[1]), None);
      assert s == parts[0] + ['.'] + parts[1];
    } else {
      assert parts[0] + "" == parts[0];
      n := Numeral(NoSign, parts[0], None, None);
    }
  }

  lemma ExponentRead(letter: char, s: string) returns (e: Exponent)
    requires ParseExponent(s).Some?
    ensures e.letter == letter && e.digits != "" && AllDigits(e.digits) && ExponentText(e) == s
  {
    if s[0] == '-' { e := Exponent(letter, Minus, s[1..]); }
    else if s[0] == '+' { e := Exponent(letter, Plus, s[1..]); }
    else { e := Exponent(letter, NoSign, s); }
  }

  // The text after the sign, split at its exponent.
  lemma BodyRead(body: string) returns (n: Numeral)
    requires var parts := if 'e' in body then Split(body, 'e') else Split(body, 'E');
      && |parts| <= 2
      && (|parts| == 2 ==> ParseExponent(parts[1]).Some?)
      && ParseMantissa(false, parts[0], 0).Some?
    ensures WellFormed(n) && n.sign == NoSign && Unsigned(n) == body
  {
    var letter := if 'e' in body then 'e' else 'E';
    var parts := Split(body, letter);
    JoinOfSplit(body, letter);
    hide Split, ParseMantissa, ParseExponent, MantissaText, ExponentText;
    n := MantissaRead(parts[0]);
    if |parts| == 2 {
      var e := ExponentRead(letter, parts[1]);
      var n' := n.(exponent := Some(e));
      SameMantissa(n, n');
      n := n';
      assert body == parts[0] + [letter] + parts[1];
      assert MantissaText(n) + ([letter] + ExponentText(e)) == body;
    } else {
      assert MantissaText(n) + "" == body;
    }
  }

  lemma SameMantissa(n: Numeral, n': Numeral)
    requires n' == n.(exponent := n'.exponent)
    ensures MantissaText(n') == MantissaText(n)
  {
  }

  lemma ParsedBody(s: string) returns (body: string, sign: Sign)
    requires TryParse(s).Some?
    ensures Trim(s) == SignText(sign) + body
    ensures var parts := if 'e' in body then Split(body, 'e') else Split(body, 'E');
      && |parts| <= 2
      && (|parts| == 2 ==> ParseExponent(parts[1]).Some?)
      && ParseMantissa(false, parts[0], 0).Some?
  {
    hide Trim, Split, ParseMantissa, ParseExponent;
    var t := Trim(s);
    sign := if t != "" && t[0] == '-' then Minus else if t != "" && t[0] == '+' then Plus else NoSign;
    body := if sign == NoSign then t else t[1..];
    var letter := if 'e' in body then 'e' else 'E';
    var parts := Split(body, letter);
    JoinOfSplit(body, letter);
    assert |parts| == 1 ==> parts[0] == body;
    SameMantissaReads(parts[0], sign == Minus, if |parts| == 1 then 0 else ParseExponent(parts[1]).GetOr(0));
  }

  lemma ReadIsWritten(s: string) returns (n: Numeral)
    requires TryParse(s).Some?
    ensures WellFormed(n) && Trim(s) == Written(n)
  {
    hide Trim, TryParse, Split, ParseMantissa, ParseExponent, MantissaText, ExponentText, WellFormed;
    var body, sign := ParsedBody(s);
    n := BodyRead(body);
    n := Signify(n, sign);
    assert Written(n) == SignText(sign) + Unsigned(n);
  }

  lemma Signify(n: Numeral, sign: Sign) returns (n': Numeral)
    requires WellFormed(n)
    ensures WellFormed(n') && n'.sign == sign && Unsigned(n') == Unsigned(n)
  {
    n' := n.(sign := sign);
  }

  /** `double.tryParse` reads exactly these texts, with white space around them. */
  lemma ParsedExact(s: string)
    ensures TryParse(s).Some? <==> exists n :: WellFormed(n) && Trim(s) == Written(n)
  {
    hide TryParse, Trim, Written, WellFormed;
    if TryParse(s).Some? { var n := ReadIsWritten(s); }
    if n :| WellFormed(n) && Trim(s) == Written(n) { ParsesWritten(s, n); }
  }

  /** And reads each as the number it stands for, with '-' kept even for zero. */
  lemma ParsedMeaning(s: string, n: Numeral)
    requires WellFormed(n) && Trim(s) == Written(n)
    ensures TryParse(s).Some? && TryParse(s).value.negative == (n.sign == Minus)
    ensures TryParse(s).value.Value() == Meaning(n)
  {
    ParsesWritten(s, n);
    hide *;
    NormaliseMeaning(n);
    NormaliseSign(n.sign == Minus, ReadDigits(AllOf(n)), |Fraction(n)| - ExponentOf(n));
  }

  lemma NormaliseMeaning(n: Numeral)
    requires WellFormed(n)
    ensures Normalise(n.sign == Minus, ReadDigits(AllOf(n)), |Fraction(n)| - ExponentOf(n)).Value() == Meaning(n)
  {
    hide ReadDigits, Pow10, Power, Normalise, Signed, ExponentOf, Fraction, Decimal.Value;
    NormaliseValue(n.sign, ReadDigits(AllOf(n)), |Fraction(n)|, ExponentOf(n));
  }

  lemma NormaliseSign(negative: bool, units: nat, scale: int)
    ensures Normalise(negative, units, scale).negative == negative
  {
    if scale >= 1 { StripSign(negative, units, scale); }
  }

  lemma {:induction false} StripSign(negative: bool, units: nat, scale: nat)
    requires scale >= 1
    ensures Strip(negative, units, scale).negative == negative
    decreases scale
  {
    if scale > 1 && units % 10 == 0 { StripSign(negative, units / 10, scale - 1); }
  }

  lemma WholeNumeral(s: string) returns (n: Numeral)
    requires s != "" && AllDigits(s)
    ensures WellFormed(n) && Trim(s) == Written(n) && Meaning(n) == ReadDigits(s) as real
  {
    n := Numeral(NoSign, s, None, None);
    assert s + "" == s;
    TrimExact(s);
    DigitsAreTrimmed(s);
    hide Trim, ReadDigits;
    assert Pow10(0) == 1;
  }

  /** In particular a whole number, as typed, is read as itself. */
  lemma WholeNumber(n: nat)
    ensures TryParse(Digits(n)).Some? && TryParse(Digits(n)).value.Value() == n as real
  {
    hide *;
    var m := WholeNumeral(Digits(n));
    ParsedMeaning(Digits(n), m);
  }

  lemma DigitsAreTrimmed(s: string)
    requires AllDigits(s)
    ensures IsTrimmed(s)
  {
    if s != "" { assert IsDigit(s[0]) && IsDigit(s[|s| - 1]); }
  }
}
