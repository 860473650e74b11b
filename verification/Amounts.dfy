/** Price texts (packages/provider-gateway/src/sip_gateway/app.py). */
module Amounts {
  import opened Prelude
  import opened Texts
  import opened DecimalText

  const MICRO := 1_000_000

  /** v in exactly `width` digits (higher digits are dropped). */
  function FixedDigits(v: nat, width: nat): (s: string)
    ensures |s| == width && AllDigits(s)
  {
    if width == 0 then "" else FixedDigits(v / 10, width - 1) + [DigitChar(v % 10)]
  }

  /** _format_amount on a price already rounded to six places, given in millionths. */
  function FormatAmount(micros: nat): string {
    var text := NatText(micros / MICRO) + "." + FixedDigits(micros % MICRO, 6);
    var stripped := StripRight(StripRight(text, '0'), '.');
    if stripped == "" then "0" else stripped
  }

  function Pow10(k: nat): (p: nat)
    ensures p > 0
  {
    if k == 0 then 1 else 10 * Pow10(k - 1)
  }

  /** Exactly `whole.fraction`. */
  function DecimalValue(whole: string, fraction: string): real
    requires AllDigits(whole) && AllDigits(fraction)
  {
    DigitsValue(whole + fraction) as real / Pow10(|fraction|) as real
  }

  /** Matches [0-9]+(\.[0-9]+)? */
  predicate IsAmountText(text: string) {
    var dot := IndexOf(text, '.');
    && dot > 0 && AllDigits(text[..dot])
    && (dot < |text| ==> dot + 1 < |text| && AllDigits(text[dot + 1..]))
  }

  /** Decimal(text) on that grammar. */
  function ParseDecimal(text: string): Option<real> {
    var dot := IndexOf(text, '.');
    if !IsAmountText(text) then None
    else Some(DecimalValue(text[..dot], if dot < |text| then text[dot + 1..] else ""))
  }

  /** An amount text with no redundant zero and at most six places. */
  predicate IsCanonical(text: string) {
    var dot := IndexOf(text, '.');
    && IsAmountText(text)
    && (text[0] == '0' ==> dot == 1)
    && (dot < |text| ==> |text| - dot - 1 <= 6 && text[|text| - 1] != '0')
  }

  function ToReal(micros: nat): real {
    micros as real / MICRO as real
  }

  // ---------------------------------------------------------------- digits

  lemma DigitsLast(front: string, c: char)
    requires AllDigits(front) && IsDigit(c)
    ensures AllDigits(front + [c]) && DigitsValue(front + [c]) == 10 * DigitsValue(front) + DigitValue(c)
  {
    assert (front + [c])[..|front|] == front;
  }

  lemma ShiftDigit(a: int, p: int, v: int, d: int)
    ensures 10 * (a * p + v) + d == a * (10 * p) + (10 * v + d)
  {
  }

  lemma {:induction false} DigitsAppend(s: string, t: string)
    requires AllDigits(s) && AllDigits(t)
    ensures DigitsValue(s + t) == DigitsValue(s) * Pow10(|t|) + DigitsValue(t)
  {
    if t == "" {
      assert s + t == s;
    } else {
      var front, c := t[..|t| - 1], t[|t| - 1];
      DigitsAppend(s, front);
      DigitsLast(s + front, c);
      DigitsLast(front, c);
      assert t == front + [c] && s + t == s + front + [c];
      ShiftDigit(DigitsValue(s), Pow10(|front|), DigitsValue(front), DigitValue(c));
      hide DigitsValue;
    }
  }

  lemma {:induction false} DigitsBound(s: string)
    requires AllDigits(s)
    ensures DigitsValue(s) < Pow10(|s|)
  {
    if s != "" { DigitsBound(s[..|s| - 1]); }
  }

  lemma {:induction false} FixedDigitsValue(v: nat, width: nat)
    requires v < Pow10(width)
    ensures DigitsValue(FixedDigits(v, width)) == v
  {
    if width > 0 {
      FixedDigitsValue(v / 10, width - 1);
      assert FixedDigits(v, width)[..width - 1] == FixedDigits(v / 10, width - 1);
    }
  }

  lemma {:induction false} FixedDigitsOf(s: string)
    requires AllDigits(s)
    ensures FixedDigits(DigitsValue(s), |s|) == s
  {
    if s != "" {
      var front := s[..|s| - 1];
      FixedDigitsOf(front);
      assert s == front + [s[|s| - 1]];
    }
  }

  lemma Pow10Six()
    ensures Pow10(6) == MICRO
  {
    assert Pow10(3) == 1000;
    assert Pow10(6) == 1000 * Pow10(3);
  }

  // ---------------------------------------------------------------- printing

  lemma TenthsCancel(a: real, p: real)
    requires p > 0.0
    ensures (10.0 * a) / (10.0 * p) == a / p
  {
  }

  lemma OneZeroLess(whole: string, front: string)
    requires AllDigits(whole) && AllDigits(front)
    ensures AllDigits(front + "0") && DecimalValue(whole, front + "0") == DecimalValue(whole, front)
  {
    DigitsLast(whole + front, '0');
    assert whole + (front + "0") == whole + front + ['0'];
    TenthsCancel(DigitsValue(whole + front) as real, Pow10(|front|) as real);
    hide DigitsValue;
  }

  /** Trailing zeros of a fraction do not change the value. */
  lemma {:induction false} StripValue(whole: string, fraction: string)
    requires AllDigits(whole) && AllDigits(fraction)
    ensures AllDigits(StripRight(fraction, '0'))
    ensures DecimalValue(whole, StripRight(fraction, '0')) == DecimalValue(whole, fraction)
  {
    hide DecimalValue;
    if fraction != "" && fraction[|fraction| - 1] == '0' {
      var front := fraction[..|fraction| - 1];
      StripValue(whole, front);
      OneZeroLess(whole, front);
      assert fraction == front + "0";
    }
  }

  lemma {:induction false} StripEnd(s: string, c: char)
    ensures StripRight(s, c) != "" ==> StripRight(s, c)[|StripRight(s, c)| - 1] != c
    ensures StripRight(s, c) <= s
  {
    if s != "" && s[|s| - 1] == c { StripEnd(s[..|s| - 1], c); }
  }

  function Whole(micros: nat): string { NatText(micros / MICRO) }

  function Fraction(micros: nat): string { StripRight(FixedDigits(micros % MICRO, 6), '0') }

  /** The text is the whole part, then the fraction without its trailing zeros when any digit is left. */
  lemma FormatShape(micros: nat)
    ensures FormatAmount(micros)
         == if Fraction(micros) == "" then Whole(micros) else Whole(micros) + "." + Fraction(micros)
  {
    var w, f := Whole(micros), FixedDigits(micros % MICRO, 6);
    var point := w + ".";
    StripStops(point, f, '0');
    StripEnd(f, '0');
    var text := point + Fraction(micros);
    if Fraction(micros) == "" {
      assert text == point && point[..|point| - 1] == w;
      assert StripRight(point, '.') == StripRight(w, '.') == w;
    } else {
      assert text[|text| - 1] == Fraction(micros)[|Fraction(micros)| - 1];
    }
  }

  function Join(whole: string, fraction: string): string {
    if fraction == "" then whole else whole + "." + fraction
  }

  lemma JoinParts(w: string, f: string)
    requires w != "" && AllDigits(w) && AllDigits(f)
    ensures var text := Join(w, f);
            && IndexOf(text, '.') == |w| && text[..|w|] == w
            && (f != "" ==> |text| == |w| + 1 + |f| && text[|w| + 1..] == f)
            && text[0] == w[0] && (f != "" ==> text[|text| - 1] == f[|f| - 1])
    ensures ParseDecimal(Join(w, f)) == Some(DecimalValue(w, f))
  {
    var text := Join(w, f);
    assert '.' !in w;
    if f == "" {
      assert IndexOf(text, '.') == |text| && text[..|text|] == w;
    } else {
      IndexOfJoin(w, '.', f);
      assert text == w + ['.'] + f;
    }
  }

  /** Six fixed places denote the millionths exactly. */
  lemma FixedValue(micros: nat)
    ensures DecimalValue(Whole(micros), FixedDigits(micros % MICRO, 6)) == ToReal(micros)
  {
    var w, six := Whole(micros), FixedDigits(micros % MICRO, 6);
    DigitsAppend(w, six);
    Pow10Six();
    FixedDigitsValue(micros % MICRO, 6);
    NatRoundTrip(micros / MICRO);
    assert DigitsValue(w + six) == micros / MICRO * MICRO + micros % MICRO == micros;
  }

  /** Reading a printed price gives the price back, and the print is canonical. */
  lemma FormatRoundTrip(micros: nat)
    ensures IsCanonical(FormatAmount(micros))
    ensures ParseDecimal(FormatAmount(micros)) == Some(ToReal(micros))
  {
    hide FixedDigits, DecimalValue, StripRight, FormatAmount;
    FormatShape(micros);
    var w, f, six := Whole(micros), Fraction(micros), FixedDigits(micros % MICRO, 6);
    StripEnd(six, '0');
    StripValue(w, six);
    FixedValue(micros);
    JoinParts(w, f);
    assert w[0] == '0' ==> |w| == 1;
  }

  /** One text per amount. */
  lemma FormatInjective(a: nat, b: nat)
    requires FormatAmount(a) == FormatAmount(b)
    ensures a == b
  {
    FormatRoundTrip(a);
    FormatRoundTrip(b);
    assert a as real == ToReal(a) * MICRO as real;
    assert b as real == ToReal(b) * MICRO as real;
  }

  /** Every canonical text is the print of the amount it denotes, so printing and parsing are inverse. */
  lemma CanonicalIsPrinted(text: string) returns (micros: nat)
    requires IsCanonical(text)
    ensures text == FormatAmount(micros) && ParseDecimal(text) == Some(ToReal(micros))
  {
    var dot := IndexOf(text, '.');
    var w := text[..dot];
    var f := if dot < |text| then text[dot + 1..] else "";
    assert text == Join(w, f);
    micros := MicrosOf(w, f);
    FormatShape(micros);
    FormatRoundTrip(micros);
  }

  lemma MicrosOf(w: string, f: string) returns (micros: nat)
    requires w != "" && AllDigits(w) && (w[0] == '0' ==> |w| == 1)
    requires AllDigits(f) && |f| <= 6 && (f != "" ==> f[|f| - 1] != '0')
    ensures Whole(micros) == w && Fraction(micros) == f
  {
    var six := f + seq(6 - |f|, _ => '0');
    DigitsBound(six);
    Pow10Six();
    FixedDigitsOf(six);
    ParseRoundTrip(w);
    var a, b := DigitsValue(w), DigitsValue(six);
    micros := a * MICRO + b;
    assert micros / MICRO == a && micros % MICRO == b;
    StripZeros(f, 6 - |f|);
  }

  lemma {:induction false} StripZeros(f: string, k: nat)
    requires f != "" ==> f[|f| - 1] != '0'
    ensures StripRight(f + seq(k, _ => '0'), '0') == f
  {
    var t := f + seq(k, _ => '0');
    if k > 0 {
      StripZeros(f, k - 1);
      assert t[..|t| - 1] == f + seq(k - 1, _ => '0');
    } else {
      assert t == f;
    }
  }
}
