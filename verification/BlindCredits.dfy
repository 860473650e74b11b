/** Issuer-unlinkable credits (packages/pic-vouchers/src/sip_pic/blind.py). */
module BlindCredits {
  import opened Prelude
  import opened NumberTheory
  import opened BigEndian
  import opened Texts
  import opened Base64Url
  import opened DecimalText
  import opened SpentSets
  import opened Payments
  import Utf8

  // ---------------------------------------------------------------- keys

  datatype BlindIssuerKey = BlindIssuerKey(n: nat, e: nat)

  const ISSUER_PREFIX := "rsa-blind:"

  /** The largest byte length strictly below n. */
  function KeyBytes(key: BlindIssuerKey): nat
    requires key.n > 0
  {
    (BitLength(key.n) - 1) / 8
  }

  function KeyText(key: BlindIssuerKey): string {
    ISSUER_PREFIX + (IntToText(key.n) + ['.'] + NatText(key.e))
  }

  /** BlindIssuerKey.from_str; None is its ValueError. */
  function ParseKey(text: string): (key: Option<BlindIssuerKey>)
    ensures key.Some? ==> key.value.n >= 3 && key.value.e >= 2
  {
    if !(ISSUER_PREFIX <= text) then None
    else
      var rest := text[|ISSUER_PREFIX|..];
      var dot := IndexOf(rest, '.');
      var n := TextToInt(rest[..dot]);
      var e := ParseNat(if dot < |rest| then rest[dot + 1..] else "");
      if n.None? || e.None? || n.value < 3 || e.value < 2 then None
      else Some(BlindIssuerKey(n.value, e.value))
  }

  /** A key text reads back as the same key; the separator cannot be mistaken for a base64url symbol. */
  lemma KeyRoundTrip(key: BlindIssuerKey)
    ensures ParseKey(KeyText(key)) == if key.n >= 3 && key.e >= 2 then Some(key) else None
  {
    var a, b := IntToText(key.n), NatText(key.e);
    var rest := a + ['.'] + b;
    IntRoundTrip(key.n);
    NatRoundTrip(key.e);
    assert Base64Url.Value('.').None?;
    IndexOfJoin(a, '.', b);
    assert KeyText(key)[|ISSUER_PREFIX|..] == rest;
    assert rest[..|a|] == a && rest[|a| + 1..] == b;
  }

  /** Two parts behind the prefix: the modulus in base64url and the exponent in digits. */
  ghost predicate Spells(text: string, a: string, b: string, key: BlindIssuerKey) {
    text == "rsa-blind:" + (a + ['.'] + b) && '.' !in a && TextToInt(a) == Some(key.n) && ParseNat(b) == Some(key.e)
  }

  /** Exactly such texts are read, if the modulus is at least 3 and the exponent at least 2. */
  lemma ParseKeyExact(text: string, key: BlindIssuerKey)
    ensures ParseKey(text) == Some(key) <==> key.n >= 3 && key.e >= 2 && exists a, b :: Spells(text, a, b, key)
  {
    hide Spells, ParseKey;
    if ParseKey(text) == Some(key) {
      var a, b := ParsedSpells(text, key);
    }
    if a, b :| Spells(text, a, b, key) {
      SpelledParses(text, a, b, key);
    }
  }

  lemma ParsedSpells(text: string, key: BlindIssuerKey) returns (a: string, b: string)
    requires ParseKey(text) == Some(key)
    ensures Spells(text, a, b, key) && key.n >= 3 && key.e >= 2
  {
    hide TextToInt, ParseNat;
    var rest := text[|ISSUER_PREFIX|..];
    var dot := IndexOf(rest, '.');
    NoDigitsNoNumber();
    a, b := rest[..dot], rest[dot + 1..];
    assert rest == a + ['.'] + b;
  }

  lemma SpelledParses(text: string, a: string, b: string, key: BlindIssuerKey)
    requires Spells(text, a, b, key)
    ensures ParseKey(text) == if key.n >= 3 && key.e >= 2 then Some(key) else None
  {
    hide TextToInt, ParseNat;
    var rest := a + ['.'] + b;
    IndexOfJoin(a, '.', b);
    assert text[|ISSUER_PREFIX|..] == rest && rest[..|a|] == a && rest[|a| + 1..] == b;
  }

  lemma NoDigitsNoNumber()
    ensures ParseNat("") == None
  {
  }

  lemma NumberSymbols(text: string)
    requires ParseNat(text).Some?
    ensures ':' !in text
  {
  }

  /** Behind its prefix a key text holds no colon. */
  lemma OneColon(text: string)
    requires ParseKey(text).Some?
    ensures |text| >= 10 && text == ISSUER_PREFIX + text[10..] && ':' !in text[10..]
  {
    hide TextToInt, ParseNat, ParseKey;
    var a, b := ParsedSpells(text, ParseKey(text).value);
    assert text[10..] == a + ['.'] + b;
    IntSymbols(a, ':');
    NumberSymbols(b);
  }

  // ---------------------------------------------------------------- the full-domain hash

  /** SHA-256, as an oracle. */
  type Digest = d: Bytes | |d| == 32 witness seq(32, _ => 0)
  type Sha = Bytes -> Digest

  const COUNTERS := 0x1_0000_0000

  lemma FourBytes()
    ensures Pow(256, 4) == COUNTERS
  {
    assert Pow(256, 2) == 65536;
    PowAdd(256, 2, 2);
  }

  function Counter(i: nat): Bytes
    requires i < COUNTERS
  {
    FourBytes();
    ToBytes(i, 4)
  }

  /** Byte i of the stream of section B.2.1 of RFC 8017: the digests of seed || 0, seed || 1, ... in a row. */
  function MaskByte(sha: Sha, seed: Bytes, i: nat): Byte
    requires i < 32 * COUNTERS
  {
    sha(seed + Counter(i / 32))[i % 32]
  }

  function Mask(sha: Sha, seed: Bytes, length: nat): (m: Bytes)
    requires length <= 32 * COUNTERS
    ensures |m| == length && forall i :: 0 <= i < length ==> m[i] == MaskByte(sha, seed, i)
  {
    seq(length, i requires 0 <= i < length => MaskByte(sha, seed, i))
  }

  /** The loop of _mgf1; beyond 2^32 blocks the counter does not fit its four bytes. */
  method Mgf1(sha: Sha, seed: Bytes, length: nat) returns (mask: Bytes)
    requires length <= 32 * COUNTERS
    ensures mask == Mask(sha, seed, length)
  {
    var out: Bytes := [];
    var counter := 0;
    while |out| < length
      invariant counter <= COUNTERS && |out| == 32 * counter
      invariant forall i :: 0 <= i < |out| ==> out[i] == MaskByte(sha, seed, i)
      decreases length - |out|
    {
      var block := sha(seed + Counter(counter));
      forall i | 32 * counter <= i < 32 * counter + 32
        ensures i < 32 * COUNTERS && block[i - 32 * counter] == MaskByte(sha, seed, i)
      {
        assert i / 32 == counter && i % 32 == i - 32 * counter;
      }
      out := out + block;
      counter := counter + 1;
    }
    mask := out[..length];
  }

  /** amount and unit as they enter the preimage, each behind its length. */
  function DenominationBytes(amount: string, unit: string): Bytes
    requires |Utf8.Encode(amount)| < COUNTERS && |Utf8.Encode(unit)| < COUNTERS
  {
    var a, u := Utf8.Encode(amount), Utf8.Encode(unit);
    Counter(|a|) + a + (Counter(|u|) + u)
  }

  function DomainTag(): Bytes {
    Utf8.Encode("sip-blind-fdh-v2:")
  }

  /** Lengths that fit their four-byte prefix. */
  predicate Encodable(amount: string, unit: string) {
    |Utf8.Encode(amount)| < COUNTERS && |Utf8.Encode(unit)| < COUNTERS
  }

  /** b"sip-blind-fdh-v2:" */
  lemma TagBytes()
    ensures DomainTag() == [115, 105, 112, 45, 98, 108, 105, 110, 100, 45, 102, 100, 104, 45, 118, 50, 58]
  {
    hide Utf8.Encode;
    var b: Bytes := [115, 105, 112, 45, 98, 108, 105, 110, 100, 45, 102, 100, 104, 45, 118, 50, 58];
    Utf8.EncodeAscii("sip-blind-fdh-v2:", b);
  }

  function Preimage(token: Bytes, amount: string, unit: string): Bytes
    requires Encodable(amount, unit)
  {
    DomainTag() + token + DenominationBytes(amount, unit)
  }

  lemma CounterInjective(i: nat, j: nat)
    requires i < COUNTERS && j < COUNTERS && Counter(i) == Counter(j)
    ensures i == j
  {
    FourBytes();
    FromToBytes(i, 4);
    FromToBytes(j, 4);
  }

  /** A length-prefixed field can be read off the front. */
  lemma PrefixedField(a: Bytes, r: Bytes, b: Bytes, t: Bytes)
    requires |a| < COUNTERS && |b| < COUNTERS
    requires Counter(|a|) + a + r == Counter(|b|) + b + t
    ensures a == b && r == t
  {
    var z := Counter(|a|) + a + r;
    assert Counter(|a|) == z[..4] == Counter(|b|);
    CounterInjective(|a|, |b|);
    assert a == z[4..4 + |a|] == b;
    assert r == z[4 + |a|..] == t;
  }

  /** The signed preimage determines serial, amount and unit. */
  lemma PreimageInjective(
    token: Bytes, amount: string, unit: string, token': Bytes, amount': string, unit': string)
    requires Encodable(amount, unit) && Encodable(amount', unit') && |token| == |token'|
    requires Preimage(token, amount, unit) == Preimage(token', amount', unit')
    ensures token == token' && amount == amount' && unit == unit'
  {
    var z := Preimage(token, amount, unit);
    var d, d' := DenominationBytes(amount, unit), DenominationBytes(amount', unit');
    hide DomainTag;
    var k := |DomainTag()|;
    assert token == z[k..k + |token|] == token';
    assert d == z[k + |token|..] == d';
    var u, u' := Utf8.Encode(unit), Utf8.Encode(unit');
    PrefixedField(Utf8.Encode(amount), Counter(|u|) + u, Utf8.Encode(amount'), Counter(|u'|) + u');
    assert Counter(|u|) + u + [] == Counter(|u|) + u && Counter(|u'|) + u' + [] == Counter(|u'|) + u';
    PrefixedField(u, [], u', []);
    Utf8.EncodeInjective(amount, amount');
    Utf8.EncodeInjective(unit, unit');
  }

  /** Moduli whose hash fits MGF1. */
  predicate Hashable(key: BlindIssuerKey) {
    key.n >= 3 && key.e >= 2 && KeyBytes(key) <= 32 * COUNTERS
  }

  /** Every credit in practice: texts below 2^30 characters, and moduli from 3 up to 65536 bits. */
  lemma OrdinaryCredits(key: BlindIssuerKey, amount: string, unit: string)
    ensures |amount| < 0x4000_0000 && |unit| < 0x4000_0000 ==> Encodable(amount, unit)
    ensures 3 <= key.n < Pow(2, 65536) && key.e >= 2 ==> Hashable(key)
  {
    Utf8.EncodeLength(amount);
    Utf8.EncodeLength(unit);
    BitLengthBounds(key.n);
    if key.n >= 3 && BitLength(key.n) > 65536 {
      PowMonotone(2, 65536, BitLength(key.n) - 1);
    }
  }

  /** _fdh */
  function Fdh(sha: Sha, token: Bytes, amount: string, unit: string, key: BlindIssuerKey): nat
    requires Hashable(key) && Encodable(amount, unit)
  {
    FromBytes(Mask(sha, Preimage(token, amount, unit), KeyBytes(key))) % key.n
  }

  /** The hash integer is already below n: the final reduction changes nothing. */
  lemma FdhUnreduced(sha: Sha, token: Bytes, amount: string, unit: string, key: BlindIssuerKey)
    requires Hashable(key) && Encodable(amount, unit)
    ensures Fdh(sha, token, amount, unit, key) == FromBytes(Mask(sha, Preimage(token, amount, unit), KeyBytes(key)))
    ensures Fdh(sha, token, amount, unit, key) < key.n
    ensures Pow(256, KeyBytes(key)) <= key.n < Pow(256, KeyBytes(key) + 1)
  {
    hide DomainTag, Preimage, Mask, KeyBytes;
    var digest := Mask(sha, Preimage(token, amount, unit), KeyBytes(key));
    FromBytesBound(digest);
    KeyBytesExact(key);
    ModSmall(FromBytes(digest), key.n);
  }

  /** The number of bytes that always fit below n, and not one less. */
  lemma KeyBytesExact(key: BlindIssuerKey)
    requires key.n > 0
    ensures Pow(256, KeyBytes(key)) <= key.n < Pow(256, KeyBytes(key) + 1)
  {
    var k := KeyBytes(key);
    BitLengthBounds(key.n);
    Pow256(k);
    PowMonotone(2, 8 * k, BitLength(key.n) - 1);
    Pow256(k + 1);
    PowMonotone(2, BitLength(key.n), 8 * (k + 1));
  }

  // ---------------------------------------------------------------- blind signatures

  /** pow(b, e, n) */
  function PowN(b: nat, e: nat, n: nat): (r: nat)
    requires n > 0
    ensures r < n
  {
    Pow(b, e) % n
  }

  /** What _random_unit may return. */
  predicate Admissible(r: nat, n: nat) {
    1 < r < n && Gcd(r, n) == 1
  }

  /** _random_unit over the numbers a generator draws; None while none of them is admissible. */
  method RandomUnit(n: nat, draws: seq<Bytes>) returns (r: Option<nat>)
    requires n > 0
    ensures r.Some? ==>
              && Admissible(r.value, n)
              && exists i ::
                   && 0 <= i < |draws| && r.value == FromBytes(draws[i]) % n
                   && forall j :: 0 <= j < i ==> !Admissible(FromBytes(draws[j]) % n, n)
    ensures r.None? ==> forall i :: 0 <= i < |draws| ==> !Admissible(FromBytes(draws[i]) % n, n)
  {
    for i := 0 to |draws|
      invariant forall j :: 0 <= j < i ==> !Admissible(FromBytes(draws[j]) % n, n)
    {
      var x := FromBytes(draws[i]) % n;
      if x > 1 && Gcd(x, n) == 1 {
        return Some(x);
      }
    }
    return None;
  }

  function Blind(m: nat, r: nat, key: BlindIssuerKey): nat
    requires key.n > 0
  {
    (m * PowN(r, key.e, key.n)) % key.n
  }

  /** sign_blinded; None is its ValueError. */
  function SignBlinded(blinded: nat, d: nat, n: nat): Option<nat>
    requires n > 0
  {
    if 0 < blinded < n then Some(PowN(blinded, d, n)) else None
  }

  function Unblind(blindedSig: nat, r: nat, n: nat): nat
    requires n > 1 && Gcd(r, n) == 1
  {
    (blindedSig * ModInverse(r, n)) % n
  }

  /** The issuer signs exactly the numbers between 0 and n, and what it signs verifies. */
  lemma SignedVerifies(p: nat, q: nat, key: BlindIssuerKey, d: nat, blinded: nat)
    requires RsaKey(p, q, key.n, key.e, d)
    ensures key.n > 1
    ensures SignBlinded(blinded, d, key.n).Some? <==> 0 < blinded < key.n
    ensures SignBlinded(blinded, d, key.n).Some? ==> PowN(SignBlinded(blinded, d, key.n).value, key.e, key.n) == blinded
  {
    RsaInverse(p, q, key.n, key.e, d, 0);
    if 0 < blinded < key.n {
      ModMod(Pow(blinded, d), key.n);
      SignatureUnique(p, q, key, d, blinded, PowN(blinded, d, key.n));
    }
  }

  /** For any message m below n: the issuer refuses exactly m = 0, and otherwise unblinding yields m^d. */
  lemma BlindSignUnblind(p: nat, q: nat, key: BlindIssuerKey, d: nat, m: nat, r: nat)
    requires RsaKey(p, q, key.n, key.e, d) && m < key.n && Gcd(r, key.n) == 1
    ensures key.n > 1
    ensures var s := SignBlinded(Blind(m, r, key), d, key.n);
            (s.None? <==> m == 0) && (s.Some? ==> Unblind(s.value, r, key.n) == PowN(m, d, key.n))
  {
    var n, e := key.n, key.e;
    RsaInverse(p, q, n, e, d, r);
    BlindZero(m, r, key);
    if m > 0 {
      BlindedPower(key, d, m, r);
      UnblindRemoves(Pow(Blind(m, r, key), d), Pow(m, d), r, n);
    }
  }

  /** (m * r^e)^d = m^d * r, once r^(ed) = r. */
  lemma BlindedPower(key: BlindIssuerKey, d: nat, m: nat, r: nat)
    requires key.n > 1 && key.e * d >= 0 && Pow(r, key.e * d) % key.n == r % key.n
    ensures var b := Blind(m, r, key);
            Pow(b, d) >= 0 && Pow(b, d) % key.n == (Pow(m, d) * r) % key.n
  {
    var n, e, b := key.n, key.e, Blind(m, r, key);
    var x := Pow(r, e);
    ModMod(x, n);
    ModMul(m, m, x % n, x, n);
    ModMod(m * (x % n), n);
    PowMod(b, m * x, d, n);
    PowProduct(m, x, d);
    PowPow(r, e, d);
    ModMul(Pow(m, d), Pow(m, d), Pow(r, e * d), r, n);
    PowNonNegative(b, d);
  }

  lemma {:induction false} PowNonNegative(b: nat, e: nat)
    ensures Pow(b, e) >= 0
  {
    if e > 0 { PowNonNegative(b, e - 1); }
  }

  /** Multiplying by a unit neither creates nor removes zero. */
  lemma BlindZero(m: nat, r: nat, key: BlindIssuerKey)
    requires key.n > 1 && m < key.n && Gcd(r, key.n) == 1
    ensures Blind(m, r, key) == 0 <==> m == 0
  {
    var n := key.n;
    UnitPow(r, key.e, n);
    UnitMod(Pow(r, key.e), n);
    var u := PowN(r, key.e, n);
    ModSmall(m, n);
    ModSmall(0, n);
    assert u * m == m * u && u * 0 == 0;
    if Blind(m, r, key) == 0 {
      Cancel(u, m, 0, n);
    }
  }

  lemma FactorCancels(y: int, r: int, v: int, n: nat)
    requires n > 1 && (r * v) % n == 1
    ensures ((y * r) * v) % n == y % n
  {
    ModSmall(1, n);
    ModMul(y, y, r * v, 1, n);
    assert (y * r) * v == y * (r * v);
  }

  lemma UnblindRemoves(x: int, y: int, r: nat, n: nat)
    requires n > 1 && Gcd(r, n) == 1 && x >= 0 && x % n == (y * r) % n
    ensures Unblind(x % n, r, n) == y % n
  {
    var v := ModInverse(r, n);
    FactorCancels(y, r, v, n);
    ModMod(x, n);
    ModMul(x % n, y * r, v, v, n);
    hide Gcd;
  }

  /** Under a valid key a message has exactly one signature modulo n. */
  lemma SignatureUnique(p: nat, q: nat, key: BlindIssuerKey, d: nat, m: nat, s: nat)
    requires RsaKey(p, q, key.n, key.e, d) && m < key.n
    ensures key.n > 1
    ensures PowN(s, key.e, key.n) == m <==> s % key.n == PowN(m, d, key.n)
  {
    var n, e := key.n, key.e;
    RsaInverse(p, q, n, e, d, m);
    RsaInverse(p, q, n, e, d, s);
    ModSmall(m, n);
    PowPow(s, e, d);
    PowPow(m, d, e);
    assert e * d == d * e;
    if PowN(s, e, n) == m {
      PowMod(Pow(s, e), m, d, n);
    }
    if s % n == PowN(m, d, n) {
      ModMod(Pow(m, d), n);
      PowMod(s, Pow(m, d), e, n);
    }
  }

  /**
   * Perfect blinding. The issuer sees b. For every message m coprime to n there is exactly one
   * admissible factor that blinds m to b, unless b is m itself, which no admissible factor yields.
   */
  lemma PerfectBlinding(p: nat, q: nat, key: BlindIssuerKey, d: nat, m: nat, b: nat) returns (r: nat)
    requires RsaKey(p, q, key.n, key.e, d)
    requires m < key.n && b < key.n && Gcd(m, key.n) == 1 && Gcd(b, key.n) == 1
    ensures key.n > 1
    ensures b != m ==> Admissible(r, key.n) && Blind(m, r, key) == b
    ensures forall x :: Admissible(x, key.n) && Blind(m, x, key) == b ==> b != m && x == r
  {
    var n, e := key.n, key.e;
    RsaInverse(p, q, n, e, d, 0);
    var c := (b * ModInverse(m, n)) % n;
    r := PowN(c, d, n);
    QuotientUnit(m, b, n);
    RootBlinds(p, q, key, d, m, b, c);
    forall x | Admissible(x, n) && Blind(m, x, key) == b ensures b != m && x == r {
      FactorIsRoot(p, q, key, d, m, b, c, x);
      if b == m {
        FactorIsRoot(p, q, key, d, m, b, c, 1);
      }
    }
    if b != m {
      assert r != 0 by { ZeroNotUnit(n); }
      if r == 1 {
        BlindWithOne(m, key);
      }
    }
  }

  lemma ZeroNotUnit(n: nat)
    requires n > 1
    ensures Gcd(0, n) != 1
  {
    assert Gcd(0, n) == Gcd(n, 0 % n);
  }

  lemma BlindWithOne(m: nat, key: BlindIssuerKey)
    requires key.n > 1 && m < key.n
    ensures Blind(m, 1, key) == m
  {
    PowOne(key.e);
    ModSmall(1, key.n);
    ModSmall(m, key.n);
  }

  /** c = b / m is a unit, and m * c = b. */
  lemma QuotientUnit(m: nat, b: nat, n: nat)
    requires n > 1 && m < n && b < n && Gcd(m, n) == 1 && Gcd(b, n) == 1
    ensures var c := (b * ModInverse(m, n)) % n; Gcd(c, n) == 1 && (m * c) % n == b
  {
    var v := ModInverse(m, n);
    assert v * m == m * v;
    UnitIffCoprime(v, n, m);
    UnitProduct(b, v, n);
    UnitMod(b * v, n);
    ModMod(b * v, n);
    ModMul(m, m, (b * v) % n, b * v, n);
    assert m * (b * v) == (m * v) * b;
    ModSmall(1, n);
    ModMul(m * v, 1, b, b, n);
    ModSmall(b, n);
  }

  /** The d-th power of the quotient is a unit and blinds m to b. */
  lemma RootBlinds(p: nat, q: nat, key: BlindIssuerKey, d: nat, m: nat, b: nat, c: nat)
    requires RsaKey(p, q, key.n, key.e, d) && key.n > 1
    requires c < key.n && Gcd(c, key.n) == 1 && (m * c) % key.n == b
    ensures var r := PowN(c, d, key.n); Gcd(r, key.n) == 1 && Blind(m, r, key) == b
  {
    var n, e := key.n, key.e;
    var r := PowN(c, d, n);
    UnitPow(c, d, n);
    UnitMod(Pow(c, d), n);
    ModMod(Pow(c, d), n);
    PowMod(r, Pow(c, d), e, n);
    PowPow(c, d, e);
    assert d * e == e * d;
    RsaInverse(p, q, n, e, d, c);
    ModMod(Pow(r, e), n);
    ModMul(m, m, Pow(r, e) % n, c, n);
  }

  /** Any unit that blinds m to b is that root. */
  lemma FactorIsRoot(p: nat, q: nat, key: BlindIssuerKey, d: nat, m: nat, b: nat, c: nat, x: nat)
    requires RsaKey(p, q, key.n, key.e, d) && key.n > 1
    requires m < key.n && Gcd(m, key.n) == 1 && c < key.n && (m * c) % key.n == b
    requires x < key.n && (Blind(m, x, key) == b || (x == 1 && b == m))
    ensures x == PowN(c, d, key.n)
  {
    var n, e := key.n, key.e;
    if x == 1 && b == m {
      BlindWithOne(m, key);
    }
    Cancel(m, PowN(x, e, n), c, n);
    ModMod(Pow(x, e), n);
    ModSmall(c, n);
    PowMod(Pow(x, e), c, d, n);
    PowPow(x, e, d);
    RsaInverse(p, q, n, e, d, x);
    ModSmall(x, n);
  }

  // ---------------------------------------------------------------- credits

  datatype BlindCredit = BlindCredit(unit: string, amount: string, issuer: string, token: string, signature: string)

  /** finalize_blind_credit */
  function Finalize(blindedSig: nat, token: Bytes, r: nat, amount: string, unit: string, key: BlindIssuerKey): BlindCredit
    requires key.n > 1 && Gcd(r, key.n) == 1
  {
    BlindCredit(unit, amount, KeyText(key), EncodeUnpadded(token), IntToText(Unblind(blindedSig, r, key.n)))
  }

  function VerifyToken(sha: Sha, token: Bytes, amount: string, unit: string, sig: nat, key: BlindIssuerKey): bool
    requires Hashable(key) && Encodable(amount, unit)
  {
    PowN(sig, key.e, key.n) == Fdh(sha, token, amount, unit, key)
  }

  /** verify_blind_credit; credits too large to hash are refused here, where the code raises. */
  function VerifyCredit(sha: Sha, credit: BlindCredit): bool {
    var key := ParseKey(credit.issuer);
    var token := DecodeUnpadded(credit.token);
    var sig := TextToInt(credit.signature);
    && key.Some? && token.Some? && sig.Some?
    && Hashable(key.value) && Encodable(credit.amount, credit.unit)
    && VerifyToken(sha, token.value, credit.amount, credit.unit, sig.value, key.value)
  }

  /** Blind, sign, finalise: the credit verifies, for every valid key, serial, denomination and unit factor. */
  lemma IssuedCreditVerifies(
    p: nat, q: nat, key: BlindIssuerKey, d: nat, sha: Sha, token: Bytes, amount: string, unit: string, r: nat)
    requires RsaKey(p, q, key.n, key.e, d) && Hashable(key) && Encodable(amount, unit) && Admissible(r, key.n)
    requires Fdh(sha, token, amount, unit, key) != 0
    ensures var m := Fdh(sha, token, amount, unit, key);
            var signed := SignBlinded(Blind(m, r, key), d, key.n);
            && signed.Some?
            && var credit := Finalize(signed.value, token, r, amount, unit, key);
               && VerifyCredit(sha, credit) && credit.amount == amount && credit.unit == unit
               && credit.issuer == KeyText(key) && credit.token == EncodeUnpadded(token)
  {
    var m := Fdh(sha, token, amount, unit, key);
    FdhUnreduced(sha, token, amount, unit, key);
    BlindSignUnblind(p, q, key, d, m, r);
    var s := PowN(m, d, key.n);
    ModMod(Pow(m, d), key.n);
    SignatureUnique(p, q, key, d, m, s);
    KeyRoundTrip(key);
    UnpaddedRoundTrip(token);
    IntRoundTrip(s);
  }

  /** Changing the serial or the denomination under the same signature changes the message that must hash alike. */
  lemma SignatureCoversValue(
    p: nat, q: nat, key: BlindIssuerKey, d: nat, sha: Sha,
    token: Bytes, amount: string, unit: string, token': Bytes, amount': string, unit': string, sig: nat)
    requires RsaKey(p, q, key.n, key.e, d) && Hashable(key)
    requires Encodable(amount, unit) && Encodable(amount', unit') && |token| == |token'|
    requires VerifyToken(sha, token, amount, unit, sig, key)
    requires (token, amount, unit) != (token', amount', unit')
    ensures Preimage(token, amount, unit) != Preimage(token', amount', unit')
    ensures VerifyToken(sha, token', amount', unit', sig, key) <==>
            Mask(sha, Preimage(token', amount', unit'), KeyBytes(key)) == Mask(sha, Preimage(token, amount, unit), KeyBytes(key))
  {
    if Preimage(token, amount, unit) == Preimage(token', amount', unit') {
      PreimageInjective(token, amount, unit, token', amount', unit');
    }
    FdhUnreduced(sha, token, amount, unit, key);
    FdhUnreduced(sha, token', amount', unit', key);
    FromBytesInjective(Mask(sha, Preimage(token', amount', unit'), KeyBytes(key)),
                       Mask(sha, Preimage(token, amount, unit), KeyBytes(key)));
  }

  lemma {:induction false} FromBytesInjective(a: Bytes, b: Bytes)
    requires |a| == |b|
    ensures FromBytes(a) == FromBytes(b) <==> a == b
  {
    if a != [] {
      FromBytesInjective(a[..|a| - 1], b[..|b| - 1]);
      assert a == a[..|a| - 1] + [a[|a| - 1]] && b == b[..|b| - 1] + [b[|b| - 1]];
    }
  }

  // ---------------------------------------------------------------- redemption

  function SpendKey(credit: BlindCredit): string {
    "blind:" + credit.issuer + ":" + credit.token
  }

  /** Credits of keys share a spend key only if they share issuer and serial text. */
  lemma SpendKeyExact(a: BlindCredit, b: BlindCredit)
    requires ParseKey(a.issuer).Some? && ParseKey(b.issuer).Some?
    ensures SpendKey(a) == SpendKey(b) <==> a.issuer == b.issuer && a.token == b.token
  {
    OneColon(a.issuer);
    OneColon(b.issuer);
    hide ParseKey;
    BehindPrefix("blind:", ISSUER_PREFIX, a.issuer[10..], a.token, b.issuer[10..], b.token, a.issuer, b.issuer);
  }

  lemma BehindPrefix(head: string, p: string, x: string, s: string, y: string, t: string, a: string, b: string)
    requires ':' !in x && ':' !in y && a == p + x && b == p + y
    ensures head + a + ":" + s == head + b + ":" + t <==> a == b && s == t
  {
    var k, u, v := |head| + |p|, head + a + ":" + s, head + b + ":" + t;
    assert u[k..] == x + [':'] + s && v[k..] == y + [':'] + t;
    if u == v {
      IndexOfJoin(x, ':', s);
      IndexOfJoin(y, ':', t);
      assert u[k..][..|x|] == x && u[k..][|x| + 1..] == s && v[k..][..|y|] == y && v[k..][|y| + 1..] == t;
    }
  }

  datatype Redemption = Redemption(credit: BlindCredit, price: string, unit: string, issuers: seq<string>)

  /** What the code asks of a credit before it looks at the spent set. */
  function Objection(sha: Sha, x: Redemption): Option<Reason> {
    if x.credit.issuer !in x.issuers then Some(UnknownIssuer)
    else if !VerifyCredit(sha, x.credit) then Some(BadSignature)
    else if x.credit.unit != x.unit || x.credit.amount != x.price then Some(AmountMismatch)
    else None
  }

  function RedeemBlind(sha: Sha, x: Redemption, spent: set<string>): (Option<Reason>, set<string>) {
    if Objection(sha, x).Some? then (Objection(sha, x), spent)
    else if SpendKey(x.credit) in spent then (Some(DoubleSpend), spent)
    else (None, spent + {SpendKey(x.credit)})
  }

  /** The signature is the one number modulo n that the private exponent makes of serial and denomination. */
  ghost predicate Genuine(sha: Sha, credit: BlindCredit, key: BlindIssuerKey, d: nat)
    requires Hashable(key)
  {
    var token, sig := DecodeUnpadded(credit.token), TextToInt(credit.signature);
    && token.Some? && sig.Some? && Encodable(credit.amount, credit.unit)
    && sig.value % key.n == Pow(Fdh(sha, token.value, credit.amount, credit.unit, key), d) % key.n
  }

  lemma VerifiesGenuine(p: nat, q: nat, key: BlindIssuerKey, d: nat, sha: Sha, credit: BlindCredit)
    requires RsaKey(p, q, key.n, key.e, d) && Hashable(key) && ParseKey(credit.issuer) == Some(key)
    ensures VerifyCredit(sha, credit) <==> Genuine(sha, credit, key, d)
  {
    hide ParseKey, DecodeUnpadded, TextToInt, Encodable, Fdh, RsaKey;
    var token, sig := DecodeUnpadded(credit.token), TextToInt(credit.signature);
    if token.Some? && sig.Some? && Encodable(credit.amount, credit.unit) {
      FdhUnreduced(sha, token.value, credit.amount, credit.unit, key);
      SignatureUnique(p, q, key, d, Fdh(sha, token.value, credit.amount, credit.unit, key), sig.value);
    }
  }

  /**
   * Under a valid key with private exponent d, redemption accepts exactly the genuine credits of a known
   * issuer, at their own price and unit, whose spend key is free; and it says why it refuses the others.
   */
  lemma RedemptionExact(p: nat, q: nat, key: BlindIssuerKey, d: nat, sha: Sha, x: Redemption, spent: set<string>)
    requires RsaKey(p, q, key.n, key.e, d) && Hashable(key) && ParseKey(x.credit.issuer) == Some(key)
    ensures var spendKey := "blind:" + x.credit.issuer + ":" + x.credit.token;
            RedeemBlind(sha, x, spent)
            == if x.credit.issuer !in x.issuers then (Some(UnknownIssuer), spent)
               else if !Genuine(sha, x.credit, key, d) then (Some(BadSignature), spent)
               else if x.price != x.credit.amount || x.unit != x.credit.unit then (Some(AmountMismatch), spent)
               else if spendKey in spent then (Some(DoubleSpend), spent)
               else (None, spent + {spendKey})
  {
    VerifiesGenuine(p, q, key, d, sha, x.credit);
    hide VerifyCredit, Genuine;
  }

  /** What does not name a key is redeemed by nobody. */
  lemma NoKeyNoCredit(sha: Sha, x: Redemption, spent: set<string>)
    requires ParseKey(x.credit.issuer).None?
    ensures RedeemBlind(sha, x, spent)
         == (Some(if x.credit.issuer in x.issuers then BadSignature else UnknownIssuer), spent)
  {
  }

  /** redeem_blind_credit on a table nobody else writes meanwhile; None means accepted. */
  method RedeemBlindCredit(sha: Sha, x: Redemption, store: SpentSet) returns (refusal: Option<Reason>)
    modifies store
    ensures (refusal, store.spent) == RedeemBlind(sha, x, old(store.spent))
    ensures store.writes == old(store.writes) + if refusal.None? then [Inserted(SpendKey(x.credit))] else []
  {
    hide VerifyCredit, SpendKey;
    if x.credit.issuer !in x.issuers {
      return Some(UnknownIssuer);
    }
    if !VerifyCredit(sha, x.credit) {
      return Some(BadSignature);
    }
    if x.credit.unit != x.unit || x.credit.amount != x.price {
      return Some(AmountMismatch);
    }
    var known := store.IsSpent(SpendKey(x.credit));
    if known {
      return Some(DoubleSpend);
    }
    var won := store.Spend(SpendKey(x.credit));
    return None;
  }
}
