/** Big-endian integers, as int.to_bytes and int.from_bytes read and write them. */
module BigEndian {
  import opened Prelude
  import opened NumberTheory

  function FromBytes(b: Bytes): nat {
    if b == [] then 0 else 256 * FromBytes(b[..|b| - 1]) + b[|b| - 1]
  }

  function ToBytes(v: nat, length: nat): (b: Bytes)
    requires v < Pow(256, length)
    ensures |b| == length
  {
    if length == 0 then []
    else ToBytes(v / 256, length - 1) + [v % 256]
  }

  /** v.bit_length() */
  function BitLength(v: nat): nat {
    if v == 0 then 0 else 1 + BitLength(v / 2)
  }

  lemma {:induction false} FromToBytes(v: nat, length: nat)
    requires v < Pow(256, length)
    ensures FromBytes(ToBytes(v, length)) == v
  {
    if length > 0 {
      FromToBytes(v / 256, length - 1);
      var b := ToBytes(v, length);
      assert b[..length - 1] == ToBytes(v / 256, length - 1);
    }
  }

  /** A number that needs all its bytes does not begin with a zero. */
  lemma {:induction false} LeadingByte(v: nat, length: nat)
    requires length > 0 && Pow(256, length - 1) <= v < Pow(256, length)
    ensures ToBytes(v, length)[0] != 0
  {
    if length > 1 {
      LeadingByte(v / 256, length - 1);
    }
  }

  lemma {:induction false} FromBytesBound(b: Bytes)
    ensures FromBytes(b) < Pow(256, |b|)
  {
    if b != [] {
      FromBytesBound(b[..|b| - 1]);
    }
  }

  lemma {:induction false} BitLengthBounds(v: nat)
    ensures v < Pow(2, BitLength(v))
    ensures v > 0 ==> BitLength(v) > 0 && Pow(2, BitLength(v) - 1) <= v
  {
    if v > 0 {
      BitLengthBounds(v / 2);
      if v / 2 > 0 {
        assert Pow(2, BitLength(v) - 1) == 2 * Pow(2, BitLength(v / 2) - 1);
      }
    }
  }

  lemma {:induction false} PowMonotone(b: int, i: nat, j: nat)
    requires b >= 1 && i <= j
    ensures 0 < Pow(b, i) <= Pow(b, j)
    decreases j
  {
    PowPositive(b, i);
    if i < j {
      PowMonotone(b, i, j - 1);
      assert b * Pow(b, j - 1) >= Pow(b, j - 1);
    }
  }

  lemma Pow256(k: nat)
    ensures Pow(256, k) == Pow(2, 8 * k)
  {
    PowPow(2, 8, k);
    assert Pow(2, 8) == 256 by {
      assert Pow(2, 4) == 16;
      PowAdd(2, 4, 4);
    }
  }

  /** A number always fits in ceil(bit_length / 8) bytes. */
  lemma ByteLengthFits(v: nat, length: nat)
    requires 8 * length >= BitLength(v)
    ensures v < Pow(256, length)
  {
    BitLengthBounds(v);
    Pow256(length);
    PowMonotone(2, BitLength(v), 8 * length);
  }
}

/** str.encode("utf-8") on strings of Unicode scalar values. */
module Utf8 {
  import opened Prelude

  function EncodeChar(c: char): (b: Bytes)
    ensures 1 <= |b| <= 4
  {
    var p := c as int;
    if p < 0x80 then [p]
    else if p < 0x800 then [0xC0 + p / 64, Tail(p)]
    else if p < 0x10000 then [0xE0 + p / 64 / 64, Tail(p / 64), Tail(p)]
    else [0xF0 + p / 64 / 64 / 64, Tail(p / 64 / 64), Tail(p / 64), Tail(p)]
  }

  function Tail(p: nat): Byte {
    0x80 + p % 64
  }

  function Encode(s: string): Bytes {
    if s == "" then [] else EncodeChar(s[0]) + Encode(s[1..])
  }

  lemma {:induction false} EncodeLength(s: string)
    ensures |Encode(s)| <= 4 * |s|
  {
    if s != "" {
      EncodeLength(s[1..]);
    }
  }

  /** Seven-bit characters are their own encoding. */
  lemma {:induction false} EncodeAscii(s: string, b: Bytes)
    requires |b| == |s| && forall i :: 0 <= i < |s| ==> s[i] as int == b[i] < 0x80
    ensures Encode(s) == b
  {
    if s != "" {
      EncodeAscii(s[1..], b[1..]);
      assert EncodeChar(s[0]) == [b[0]];
      assert b == [b[0]] + b[1..];
    }
  }

  // ---------------------------------------------------------------- reading back, by section 3 of RFC 3629

  predicate IsTail(b: Byte) {
    0x80 <= b < 0xC0
  }

  /** The character at the head of a text and the number of its bytes; None when it is malformed or overlong. */
  function DecodeChar(b: Bytes): Option<(char, nat)> {
    if |b| >= 1 && b[0] < 0x80 then Some((b[0] as char, 1))
    else if |b| >= 2 && 0xC0 <= b[0] < 0xE0 && IsTail(b[1]) then
      var p: int := (b[0] as int - 0xC0) * 64 + (b[1] as int - 0x80);
      if p >= 0x80 then Some((p as char, 2)) else None
    else if |b| >= 3 && 0xE0 <= b[0] < 0xF0 && IsTail(b[1]) && IsTail(b[2]) then
      var p: int := (b[0] as int - 0xE0) * 4096 + (b[1] as int - 0x80) * 64 + (b[2] as int - 0x80);
      if p >= 0x800 && !(0xD800 <= p < 0xE000) then Some((p as char, 3)) else None
    else if |b| >= 4 && 0xF0 <= b[0] < 0xF8 && IsTail(b[1]) && IsTail(b[2]) && IsTail(b[3]) then
      var p: int := (b[0] as int - 0xF0) * 262144 + (b[1] as int - 0x80) * 4096 + (b[2] as int - 0x80) * 64 + (b[3] as int - 0x80);
      if 0x10000 <= p < 0x110000 then Some((p as char, 4)) else None
    else None
  }

  function Decode(b: Bytes): Option<string>
    decreases |b|
  {
    if b == [] then Some("")
    else
      var head := DecodeChar(b);
      if head.None? || head.value.1 == 0 || head.value.1 > |b| then None
      else
        var rest := Decode(b[head.value.1..]);
        if rest.None? then None else Some([head.value.0] + rest.value)
  }

  lemma CharRoundTrip(c: char, rest: Bytes)
    ensures DecodeChar(EncodeChar(c) + rest) == Some((c, |EncodeChar(c)|))
  {
    var p, b := c as int, EncodeChar(c) + rest;
    assert forall i :: 0 <= i < |EncodeChar(c)| ==> b[i] == EncodeChar(c)[i];
    if 0x800 <= p < 0x10000 {
      assert p == p / 64 / 64 * 4096 + p / 64 % 64 * 64 + p % 64;
    } else if p >= 0x10000 {
      assert p == p / 64 / 64 / 64 * 262144 + p / 64 / 64 % 64 * 4096 + p / 64 % 64 * 64 + p % 64;
    }
  }

  /** What is encoded can be decoded as RFC 3629 prescribes. */
  lemma {:induction false} RoundTrip(s: string)
    ensures Decode(Encode(s)) == Some(s)
  {
    hide DecodeChar, EncodeChar;
    if s != "" {
      var head, tail := EncodeChar(s[0]), Encode(s[1..]);
      RoundTrip(s[1..]);
      CharRoundTrip(s[0], tail);
      assert (head + tail)[|head|..] == tail;
      assert s == [s[0]] + s[1..];
    }
  }

  lemma EncodeInjective(s: string, t: string)
    requires Encode(s) == Encode(t)
    ensures s == t
  {
    RoundTrip(s);
    RoundTrip(t);
  }
}

/** String helpers shared by the text formats. */
module Texts {

  /** str.rstrip(c) */
  function StripRight(s: string, c: char): string {
    if s != "" && s[|s| - 1] == c then StripRight(s[..|s| - 1], c) else s
  }

  /** The index of the first c, or the length when there is none. */
  function IndexOf(s: string, c: char): (i: nat)
    ensures i <= |s| && (forall j :: 0 <= j < i ==> s[j] != c) && (i < |s| ==> s[i] == c)
  {
    if s == "" || s[0] == c then 0 else 1 + IndexOf(s[1..], c)
  }

  lemma IndexOfJoin(a: string, c: char, b: string)
    requires c !in a
    ensures IndexOf(a + [c] + b, c) == |a|
  {
    var s := a + [c] + b;
    assert s[|a|] == c && forall j :: 0 <= j < |a| ==> s[j] == a[j];
  }

  lemma {:induction false} StripStops(a: string, b: string, c: char)
    requires a != "" && a[|a| - 1] != c
    ensures StripRight(a + b, c) == a + StripRight(b, c)
  {
    if b == "" {
      assert a + b == a;
    } else if b[|b| - 1] == c {
      assert (a + b)[..|a + b| - 1] == a + b[..|b| - 1];
      StripStops(a, b[..|b| - 1], c);
    }
  }
}

/** Unpadded base64url (section 5 of RFC 4648). */
module Base64Url {
  import opened Prelude
  import opened Texts
  import opened NumberTheory
  import opened BigEndian

  function Symbol(v: nat): char
    requires v < 64
  {
    if v < 26 then (65 + v) as char
    else if v < 52 then (97 + (v - 26)) as char
    else if v < 62 then (48 + (v - 52)) as char
    else if v == 62 then '-' else '_'
  }

  function Value(c: char): (v: Option<nat>)
    ensures v.Some? ==> v.value < 64
  {
    if 'A' <= c <= 'Z' then Some(c as int - 65)
    else if 'a' <= c <= 'z' then Some(c as int - 97 + 26)
    else if '0' <= c <= '9' then Some(c as int - 48 + 52)
    else if c == '-' then Some(62)
    else if c == '_' then Some(63)
    else None
  }

  /** Three bytes as four six-bit values; a final group of one or two bytes gives two or three. */
  function Sextets(raw: Bytes): (v: seq<nat>)
    ensures forall i :: 0 <= i < |v| ==> v[i] < 64
    ensures |v| % 4 != 1
  {
    if |raw| == 0 then []
    else if |raw| == 1 then [raw[0] / 4, raw[0] % 4 * 16]
    else if |raw| == 2 then [raw[0] / 4, raw[0] % 4 * 16 + raw[1] / 16, raw[1] % 16 * 4]
    else
      [raw[0] / 4, raw[0] % 4 * 16 + raw[1] / 16, raw[1] % 16 * 4 + raw[2] / 64, raw[2] % 64] + Sextets(raw[3..])
  }

  function Octets(v: seq<nat>): Bytes
    requires forall i :: 0 <= i < |v| ==> v[i] < 64
    requires |v| % 4 != 1
  {
    if |v| == 0 then []
    else if |v| == 2 then [v[0] * 4 + v[1] / 16]
    else if |v| == 3 then [v[0] * 4 + v[1] / 16, v[1] % 16 * 16 + v[2] / 4]
    else [v[0] * 4 + v[1] / 16, v[1] % 16 * 16 + v[2] / 4, v[2] % 4 * 64 + v[3]] + Octets(v[4..])
  }

  predicate Alphabetic(text: string) {
    forall i :: 0 <= i < |text| ==> Value(text[i]).Some?
  }

  function Symbols(v: seq<nat>): (text: string)
    requires forall i :: 0 <= i < |v| ==> v[i] < 64
    ensures |text| == |v|
  {
    seq(|v|, i requires 0 <= i < |v| => Symbol(v[i]))
  }

  function Values(text: string): (v: seq<nat>)
    requires Alphabetic(text)
    ensures |v| == |text| && forall i :: 0 <= i < |v| ==> v[i] < 64
  {
    seq(|text|, i requires 0 <= i < |text| => Value(text[i]).value)
  }

  /** '=' up to the next multiple of four. */
  function Padding(length: nat): string {
    seq((4 - length % 4) % 4, _ => '=')
  }

  /** base64.urlsafe_b64encode */
  function Encode(raw: Bytes): string {
    Symbols(Sextets(raw)) + Padding(|Sextets(raw)|)
  }

  /** base64.urlsafe_b64decode of padded text over the alphabet; None is its ValueError. */
  function Decode(text: string): Option<Bytes> {
    var body := StripRight(text, '=');
    if text == body + Padding(|body|) && Alphabetic(body) && |body| % 4 != 1 then Some(Octets(Values(body)))
    else None
  }

  function EncodeUnpadded(raw: Bytes): string {
    StripRight(Encode(raw), '=')
  }

  function DecodeUnpadded(text: string): Option<Bytes> {
    Decode(text + Padding(|text|))
  }

  lemma {:induction false} OctetsSextets(raw: Bytes)
    ensures Octets(Sextets(raw)) == raw
  {
    if |raw| > 2 {
      OctetsSextets(raw[3..]);
      assert Sextets(raw)[4..] == Sextets(raw[3..]);
      assert raw == [raw[0], raw[1], raw[2]] + raw[3..];
    }
  }

  lemma SymbolValue(v: nat)
    requires v < 64
    ensures Value(Symbol(v)) == Some(v)
  {
    assert v < 26 ==> Symbol(v) as int == 65 + v;
    assert 26 <= v < 52 ==> Symbol(v) as int == 97 + (v - 26);
    assert 52 <= v < 62 ==> Symbol(v) as int == 48 + (v - 52);
  }

  lemma ValuesSymbols(v: seq<nat>)
    requires forall i :: 0 <= i < |v| ==> v[i] < 64
    ensures Alphabetic(Symbols(v)) && Values(Symbols(v)) == v
  {
    forall i | 0 <= i < |v| ensures Value(Symbols(v)[i]) == Some(v[i]) {
      SymbolValue(v[i]);
    }
  }

  /** Stripping removes the padding and nothing else. */
  lemma {:induction false} StripPadding(body: string, k: nat)
    requires Alphabetic(body)
    ensures StripRight(body + seq(k, _ => '='), '=') == body
  {
    var t := body + seq(k, _ => '=');
    if k > 0 {
      StripPadding(body, k - 1);
      assert t[..|t| - 1] == body + seq(k - 1, _ => '=');
    } else {
      assert t == body;
      assert body != "" ==> Value(body[|body| - 1]).Some?;
    }
  }

  /** Every byte string survives the text form, and the text holds alphabet symbols only. */
  lemma UnpaddedRoundTrip(raw: Bytes)
    ensures Alphabetic(EncodeUnpadded(raw))
    ensures DecodeUnpadded(EncodeUnpadded(raw)) == Some(raw)
  {
    hide Octets, Value, Symbols, Values, StripRight;
    var v := Sextets(raw);
    ValuesSymbols(v);
    StripPadding(Symbols(v), (4 - |v| % 4) % 4);
    OctetsSextets(raw);
  }

  function IntToText(v: nat): string {
    var width := (BitLength(v) + 7) / 8;
    var length := if width > 1 then width else 1;
    ByteLengthFits(v, length);
    EncodeUnpadded(ToBytes(v, length))
  }

  function TextToInt(text: string): Option<nat> {
    var raw := DecodeUnpadded(text);
    if raw.None? then None else Some(FromBytes(raw.value))
  }

  /** What can be decoded holds nothing but symbols and padding. */
  lemma IntSymbols(text: string, c: char)
    requires TextToInt(text).Some? && Value(c).None? && c != '='
    ensures c !in text
  {
    var padded := text + Padding(|text|);
    var body := StripRight(padded, '=');
    forall i | 0 <= i < |text| ensures text[i] != c {
      assert text[i] == padded[i] == (body + Padding(|body|))[i];
    }
  }

  /** Every natural number survives the text form, which spends no byte on a leading zero. */
  lemma IntRoundTrip(v: nat)
    ensures Alphabetic(IntToText(v)) && TextToInt(IntToText(v)) == Some(v)
    ensures var raw := DecodeUnpadded(IntToText(v)); raw.Some? && |raw.value| > 0 && (|raw.value| > 1 ==> raw.value[0] != 0)
  {
    var width := (BitLength(v) + 7) / 8;
    var length := if width > 1 then width else 1;
    ByteLengthFits(v, length);
    FromToBytes(v, length);
    UnpaddedRoundTrip(ToBytes(v, length));
    if length > 1 {
      BitLengthBounds(v);
      Pow256(length - 1);
      PowMonotone(2, 8 * (length - 1), BitLength(v) - 1);
      LeadingByte(v, length);
    }
  }
}

/** Decimal text of natural numbers. */
module DecimalText {
  import opened Prelude

  predicate IsDigit(c: char) { '0' <= c <= '9' }

  predicate AllDigits(s: string) {
    forall i :: 0 <= i < |s| ==> IsDigit(s[i])
  }

  function DigitChar(d: nat): char
    requires d < 10
  {
    (48 + d) as char
  }

  function DigitValue(c: char): nat
    requires IsDigit(c)
  {
    c as int - 48
  }

  /** str(n) */
  function NatText(n: nat): (s: string)
    ensures |s| > 0 && AllDigits(s)
    ensures s[0] == '0' <==> n == 0
  {
    if n < 10 then [DigitChar(n)] else NatText(n / 10) + [DigitChar(n % 10)]
  }

  function DigitsValue(s: string): nat
    requires AllDigits(s)
  {
    if s == "" then 0 else 10 * DigitsValue(s[..|s| - 1]) + DigitValue(s[|s| - 1])
  }

  function ParseNat(s: string): Option<nat> {
    if s != "" && AllDigits(s) then Some(DigitsValue(s)) else None
  }

  lemma {:induction false} NatRoundTrip(n: nat)
    ensures ParseNat(NatText(n)) == Some(n)
  {
    if n >= 10 {
      NatRoundTrip(n / 10);
      assert NatText(n)[..|NatText(n)| - 1] == NatText(n / 10);
    } else {
      assert NatText(n) == [DigitChar(n)];
      assert DigitsValue([DigitChar(n)]) == 10 * DigitsValue("") + n by {
        assert [DigitChar(n)][..0] == "";
      }
    }
  }

  /** Without leading zeros the text of a number is unique. */
  lemma {:induction false} ParseRoundTrip(s: string)
    requires s != "" && AllDigits(s) && (s[0] == '0' ==> |s| == 1)
    ensures NatText(DigitsValue(s)) == s
  {
    var n, front := DigitsValue(s), s[..|s| - 1];
    assert s == front + [s[|s| - 1]];
    if |s| == 1 {
      assert front == "";
    } else {
      ParseRoundTripFront(front);
      ParseRoundTrip(front);
      assert n / 10 == DigitsValue(front) && n % 10 == DigitValue(s[|s| - 1]);
    }
  }

  lemma {:induction false} ParseRoundTripFront(s: string)
    requires s != "" && AllDigits(s) && s[0] != '0'
    ensures DigitsValue(s) > 0
  {
    if |s| > 1 {
      ParseRoundTripFront(s[..|s| - 1]);
    } else {
      assert s[..0] == "";
    }
  }
}
