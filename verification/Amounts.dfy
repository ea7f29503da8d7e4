/**
 Money and distances as exact decimals, with the printer behind Dart's `double.toString`
 and `toStringAsFixed` and the grammar of `double.tryParse`.
 */
module Amounts {
  import opened Text

  function Pow10(k: nat): (p: nat)
    ensures p > 0
  {
    if k == 0 then 1 else 10 * Pow10(k - 1)
  }

  /** `units / 10^scale`, with a sign of its own so that `-0.0` is representable. */
  datatype Decimal = Decimal(negative: bool, units: nat, scale: nat)
  {
    // One representation per printed form: at least one decimal, no trailing zero after it.
    predicate Canonical() {
      scale >= 1 && (scale == 1 || units % 10 != 0)
    }

    function Value(): real {
      (if negative then -1.0 else 1.0) * Ratio(units, scale)
    }
  }

  type Amount = d: Decimal | d.Canonical() witness Decimal(false, 0, 1)

  const ZERO: Amount := Decimal(false, 0, 1)

  function Ratio(units: nat, scale: nat): real {
    units as real / Pow10(scale) as real
  }

  // ----- digits -----

  predicate IsDigit(c: char) { '0' <= c <= '9' }

  predicate AllDigits(s: string) {
    forall i :: 0 <= i < |s| ==> IsDigit(s[i])
  }

  function DigitChar(d: nat): (c: char)
    requires d < 10
    ensures IsDigit(c) && DigitValue(c) == d
  {
    '0' + d as char
  }

  function DigitValue(c: char): (d: nat)
    requires IsDigit(c)
    ensures d < 10
  {
    (c - '0') as nat
  }

  function ReadDigits(s: string): nat
    requires AllDigits(s)
  {
    if s == "" then 0 else 10 * ReadDigits(s[..|s| - 1]) + DigitValue(s[|s| - 1])
  }

  /** The digits of `n`, without leading zeros. */
  function Digits(n: nat): (s: string)
    ensures AllDigits(s) && s != ""
    ensures ReadDigits(s) == n
  {
    if n < 10 then [DigitChar(n)]
    else
      var front := Digits(n / 10);
      var s := front + [DigitChar(n % 10)];
      assert s[..|s| - 1] == front;
      s
  }

  /** The last `k` digits of `n`, with leading zeros. */
  function Padded(n: nat, k: nat): (s: string)
    ensures AllDigits(s) && |s| == k
  {
    if k == 0 then "" else Padded(n / 10, k - 1) + [DigitChar(n % 10)]
  }

  /** `n` without its last `k` digits. */
  function Leading(n: nat, k: nat): nat {
    if k == 0 then n else Leading(n / 10, k - 1)
  }

  lemma ReadSnoc(s: string, d: nat)
    requires AllDigits(s) && d < 10
    ensures AllDigits(s + [DigitChar(d)]) && ReadDigits(s + [DigitChar(d)]) == 10 * ReadDigits(s) + d
  {
    assert (s + [DigitChar(d)])[..|s|] == s;
  }

  /** The leading digits followed by the last `k` digits are the digits of `n`. */
  lemma {:induction false} ReadLeadingPadded(n: nat, k: nat)
    ensures var all := Digits(Leading(n, k)) + Padded(n, k); AllDigits(all) && ReadDigits(all) == n
  {
    hide Digits, ReadDigits;
    var whole := Digits(Leading(n, k));
    if k == 0 {
      assert whole + Padded(n, k) == whole;
    } else {
      ReadLeadingPadded(n / 10, k - 1);
      ReadSnoc(whole + Padded(n / 10, k - 1), n % 10);
      assert whole + Padded(n, k) == whole + Padded(n / 10, k - 1) + [DigitChar(n % 10)];
    }
  }

  // ----- printing -----

  function Positional(units: nat, scale: nat): string {
    Digits(Leading(units, scale)) + "." + Padded(units, scale)
  }

  /** `amount.toString()`. */
  function Print(a: Amount): string {
    (if a.negative then "-" else "") + Positional(a.units, a.scale)
  }

  /** `d.toStringAsFixed(scale)`: round half up on the exact value. */
  function Rounded(d: real, scale: nat): (units: nat)
    requires d >= 0.0
    ensures units as real <= d * Pow10(scale) as real + 0.5 < units as real + 1.0
  {
    assert d * Pow10(scale) as real >= 0.0;
    (d * Pow10(scale) as real + 0.5).Floor
  }

  function Fixed(d: real, scale: nat): string
    requires d >= 0.0
  {
    Positional(Rounded(d, scale), scale)
  }

  // ----- parsing -----

  function Strip(negative: bool, units: nat, scale: nat): (a: Amount)
    requires scale >= 1
  {
    if scale > 1 && units % 10 == 0 then Strip(negative, units / 10, scale - 1)
    else Decimal(negative, units, scale)
  }

  function Normalise(negative: bool, units: nat, scale: int): Amount {
    if scale < 1 then Decimal(negative, units * Pow10(1 - scale), 1) else Strip(negative, units, scale)
  }

  function ParseExponent(s: string): Option<int> {
    var digits := if s != "" && (s[0] == '-' || s[0] == '+') then s[1..] else s;
    if digits == "" || !AllDigits(digits) then None
    else
      var n: int := ReadDigits(digits);
      Some(if s[0] == '-' then -n else n)
  }

  // digits, "digits.", ".digits" or "digits.digits"
  function ParseMantissa(negative: bool, s: string, exponent: int): Option<Amount> {
    var parts := Split(s, '.');
    var frac := if |parts| == 2 then parts[1] else "";
    var all := parts[0] + frac;
    if |parts| > 2 || all == "" || !AllDigits(all) then None
    else Some(Normalise(negative, ReadDigits(all), |frac| - exponent))
  }

  /** `double.tryParse(s)`: white space, sign, mantissa and optional exponent. */
  function TryParse(s: string): Option<Amount> {
    var t := Trim(s);
    var negative := t != "" && t[0] == '-';
    var body := if t != "" && (t[0] == '-' || t[0] == '+') then t[1..] else t;
    var parts := if 'e' in body then Split(body, 'e') else Split(body, 'E');
    if |parts| == 1 then ParseMantissa(negative, body, 0)
    else if |parts| > 2 then None
    else
      var exponent := ParseExponent(parts[1]);
      if exponent.None? then None else ParseMantissa(negative, parts[0], exponent.value)
  }

  // ----- printer and parser are inverse -----

  lemma PositionalChars(units: nat, scale: nat, c: char)
    requires c in Positional(units, scale)
    ensures IsDigit(c) || c == '.'
  {
  }

  lemma ParseMantissaParts(negative: bool, whole: string, frac: string)
    requires AllDigits(whole) && whole != "" && AllDigits(frac) && AllDigits(whole + frac)
    ensures ParseMantissa(negative, whole + "." + frac, 0)
         == Some(Normalise(negative, ReadDigits(whole + frac), |frac|))
  {
    hide ReadDigits, Normalise;
    assert whole + "." + frac == whole + ['.'] + frac;
    SplitPrefix(whole, frac, '.');
    SplitWhole(frac, '.');
    assert [whole] + [frac] == [whole, frac];
  }

  lemma ParsePositionalMantissa(negative: bool, units: nat, scale: nat)
    requires scale >= 1
    ensures ParseMantissa(negative, Positional(units, scale), 0) == Some(Strip(negative, units, scale))
  {
    hide Digits, Padded, Leading, ReadDigits, ParseMantissa, Strip;
    ReadLeadingPadded(units, scale);
    ParseMantissaParts(negative, Digits(Leading(units, scale)), Padded(units, scale));
  }

  lemma PositionalEnds(units: nat, scale: nat)
    requires scale >= 1
    ensures var body := Positional(units, scale); body != "" && IsDigit(body[0]) && IsDigit(body[|body| - 1])
  {
  }

  lemma ParsePositional(negative: bool, units: nat, scale: nat)
    requires scale >= 1
    ensures TryParse((if negative then "-" else "") + Positional(units, scale)) == Some(Strip(negative, units, scale))
  {
    var body := Positional(units, scale);
    var s := (if negative then "-" else "") + body;
    PositionalEnds(units, scale);
    assert Trim(s) == s by { TrimExact(s); }
    assert (if s[0] == '-' || s[0] == '+' then s[1..] else s) == body;
    if c :| c in body && (c == 'e' || c == 'E') {
      PositionalChars(units, scale, c);
    }
    SplitWhole(body, 'E');
    hide ParseMantissa, Positional, Strip, Trim;
    ParsePositionalMantissa(negative, units, scale);
  }

  /** `double.tryParse(a.toString()) == a`. */
  lemma ParsePrint(a: Amount)
    ensures TryParse(Print(a)) == Some(a)
  {
    ParsePositional(a.negative, a.units, a.scale);
  }

  lemma PrintFree(a: Amount, c: char)
    requires !IsDigit(c) && c != '.' && c != '-'
    ensures c !in Print(a)
  {
    if c in Positional(a.units, a.scale) {
      PositionalChars(a.units, a.scale, c);
    }
  }

  lemma {:induction false} StripValue(negative: bool, units: nat, scale: nat)
    requires scale >= 1
    ensures Strip(negative, units, scale).Value() == Decimal(negative, units, scale).Value()
    decreases scale
  {
    if scale > 1 && units % 10 == 0 {
      StripValue(negative, units / 10, scale - 1);
      RatioCancel(units / 10, scale - 1);
    }
  }

  lemma RatioCancel(units: nat, scale: nat)
    ensures Ratio(10 * units, scale + 1) == Ratio(units, scale)
  {
    var u, p := units as real, Pow10(scale) as real;
    assert Pow10(scale + 1) as real == 10.0 * p;
    assert (10.0 * u) / (10.0 * p) == u / p;
  }

  /** Reading back `d.toStringAsFixed(scale)` gives `d` rounded half up to that many decimals. */
  lemma ParseFixed(d: real, scale: nat)
    requires d >= 0.0 && scale >= 1
    ensures TryParse(Fixed(d, scale)).Some?
    ensures TryParse(Fixed(d, scale)).value.Value() == Ratio(Rounded(d, scale), scale)
  {
    ParsePositional(false, Rounded(d, scale), scale);
    assert "" + Fixed(d, scale) == Fixed(d, scale);
    StripValue(false, Rounded(d, scale), scale);
  }
}
