/** The price of a request and the quote that bounds it (packages/provider-gateway/src/sip_gateway/app.py). */
module Pricing {
  import opened Prelude
  import opened Amounts

  /**
   * Floating point as the pricing code needs it: one rounding applied to every intermediate result,
   * and round(value, 6) counted in millionths. Both only have to be monotone.
   */
  datatype Float = Float(round: real -> real, sixPlaces: real -> nat)

  ghost predicate Monotone(f: Float) {
    && (forall x, y :: x <= y ==> f.round(x) <= f.round(y))
    && (forall x, y :: x <= y ==> f.sixPlaces(x) <= f.sixPlaces(y))
  }

  datatype Rates = Rates(inputPer1m: real, outputPer1m: real)

  predicate NonNegative(r: Rates) {
    r.inputPer1m >= 0.0 && r.outputPer1m >= 0.0
  }

  /** Exact arithmetic with rounding to the nearest at the end is monotone, and accurate without any error before that. */
  lemma ExactArithmetic() returns (f: Float)
    ensures Monotone(f) && Accurate(f, 0.0)
  {
    f := Float(x => x, x => if x <= 0.0 then 0 else (x * 1000000.0 + 0.5).Floor);
    forall x, y | x <= y ensures f.sixPlaces(x) <= f.sixPlaces(y) {
      if 0.0 < x {
        assert x * 1000000.0 + 0.5 <= y * 1000000.0 + 0.5;
      }
    }
  }

  function Times(x: real, c: real): real {
    x * c
  }

  function Charge(f: Float, tokens: nat, rate: real): real {
    f.round(Times(f.round(tokens as real / 1000000.0), rate))
  }

  /** _price_amount, in millionths. */
  function PriceMicros(f: Float, r: Rates, input: nat, output: nat): nat {
    f.sixPlaces(f.round(Charge(f, input, r.inputPer1m) + Charge(f, output, r.outputPer1m)))
  }

  lemma ChargeMonotone(f: Float, a: nat, b: nat, rate: real)
    requires Monotone(f) && rate >= 0.0 && a <= b
    ensures Charge(f, a, rate) <= Charge(f, b, rate)
  {
    var x, y := f.round(a as real / 1000000.0), f.round(b as real / 1000000.0);
    assert a as real / 1000000.0 <= b as real / 1000000.0;
    assert x * rate <= y * rate;
  }

  lemma PriceMonotone(f: Float, r: Rates, input: nat, output: nat, input': nat, output': nat)
    requires Monotone(f) && NonNegative(r) && input <= input' && output <= output'
    ensures PriceMicros(f, r, input, output) <= PriceMicros(f, r, input', output')
  {
    ChargeMonotone(f, input, input', r.inputPer1m);
    ChargeMonotone(f, output, output', r.outputPer1m);
  }

  /** Each rounding of a non-negative number is off by at most the fraction u of it, and six places are the nearest. */
  ghost predicate Accurate(f: Float, u: real) {
    && 0.0 <= u <= 1.0
    && (forall x :: x >= 0.0 ==> x * (1.0 - u) <= f.round(x) <= x * (1.0 + u))
    && (forall x :: x >= 0.0 ==> x * 1000000.0 - 0.5 <= f.sixPlaces(x) as real <= x * 1000000.0 + 0.5)
  }

  lemma TimesMonotone(a: real, b: real, c: real)
    requires a <= b && c >= 0.0
    ensures Times(a, c) <= Times(b, c) && Times(0.0, c) == 0.0
  {
  }

  lemma TimesSwap(x: real, a: real, b: real)
    ensures Times(Times(x, a), b) == Times(Times(x, b), a)
  {
  }

  lemma TimesSum(x: real, y: real, c: real)
    ensures Times(x, c) + Times(y, c) == Times(x + y, c)
  {
  }

  /** Tokens at rates per million, in millionths. */
  function Cost(r: Rates, input: nat, output: nat): real {
    input as real * r.inputPer1m + output as real * r.outputPer1m
  }

  /** x * c * c * c */
  function Thrice(x: real, c: real): real {
    Times(Times(Times(x, c), c), c)
  }

  lemma RoundOnce(f: Float, u: real, x: real)
    requires Accurate(f, u) && x >= 0.0
    ensures 0.0 <= Times(x, 1.0 - u) <= f.round(x) <= Times(x, 1.0 + u)
  {
    TimesMonotone(0.0, x, 1.0 - u);
  }

  /** A charge is the exact one up to two roundings. */
  lemma ChargeAccurate(f: Float, u: real, tokens: nat, rate: real)
    requires Accurate(f, u) && rate >= 0.0
    ensures var exact, lo, hi := Times(tokens as real / 1000000.0, rate), 1.0 - u, 1.0 + u;
            0.0 <= Times(Times(exact, lo), lo) <= Charge(f, tokens, rate) <= Times(Times(exact, hi), hi)
  {
    assert 0.0 <= u <= 1.0;
    hide Times, Accurate;
    var x, lo, hi := tokens as real / 1000000.0, 1.0 - u, 1.0 + u;
    var a := f.round(x);
    RoundOnce(f, u, x);
    TimesMonotone(0.0, a, rate);
    TimesMonotone(Times(x, lo), a, rate);
    TimesMonotone(a, Times(x, hi), rate);
    RoundOnce(f, u, Times(a, rate));
    TimesMonotone(0.0, Times(x, lo), rate);
    TimesMonotone(0.0, Times(Times(x, lo), rate), lo);
    TimesMonotone(Times(Times(x, lo), rate), Times(a, rate), lo);
    TimesMonotone(Times(a, rate), Times(Times(x, hi), rate), hi);
    TimesSwap(x, lo, rate);
    TimesSwap(x, hi, rate);
  }

  /** In millionths: the price is tokens times rate per million, input with input and output with output, up to the roundings. */
  lemma PriceAccurate(f: Float, r: Rates, input: nat, output: nat, u: real)
    requires Accurate(f, u) && NonNegative(r)
    ensures Thrice(Cost(r, input, output), 1.0 - u) - 0.5 <= PriceMicros(f, r, input, output) as real
    ensures PriceMicros(f, r, input, output) as real <= Thrice(Cost(r, input, output), 1.0 + u) + 0.5
  {
    var lo, hi := 1.0 - u, 1.0 + u;
    var x, y := Times(input as real / 1000000.0, r.inputPer1m), Times(output as real / 1000000.0, r.outputPer1m);
    assert 0.0 <= u <= 1.0;
    InMillionths(input, output, r, lo);
    InMillionths(input, output, r, hi);
    hide Times, Accurate, Charge;
    ChargeAccurate(f, u, input, r.inputPer1m);
    ChargeAccurate(f, u, output, r.outputPer1m);
    TimesSum(x, y, lo);
    TimesSum(Times(x, lo), Times(y, lo), lo);
    TimesSum(x, y, hi);
    TimesSum(Times(x, hi), Times(y, hi), hi);
    SumRounded(f, u, x + y, Charge(f, input, r.inputPer1m) + Charge(f, output, r.outputPer1m));
  }

  lemma InMillionths(input: nat, output: nat, r: Rates, c: real)
    ensures var z := Times(input as real / 1000000.0, r.inputPer1m) + Times(output as real / 1000000.0, r.outputPer1m);
            Thrice(z, c) * 1000000.0 == Thrice(Cost(r, input, output), c)
  {
    var z := Times(input as real / 1000000.0, r.inputPer1m) + Times(output as real / 1000000.0, r.outputPer1m);
    assert z * 1000000.0 == Cost(r, input, output);
    TimesSwap(z, c, 1000000.0);
    TimesSwap(Times(z, c), c, 1000000.0);
    TimesSwap(Times(Times(z, c), c), c, 1000000.0);
  }

  lemma SumRounded(f: Float, u: real, z: real, sum: real)
    requires Accurate(f, u) && 0.0 <= sum
    requires Times(Times(z, 1.0 - u), 1.0 - u) <= sum <= Times(Times(z, 1.0 + u), 1.0 + u)
    ensures Thrice(z, 1.0 - u) * 1000000.0 - 0.5 <= f.sixPlaces(f.round(sum)) as real <= Thrice(z, 1.0 + u) * 1000000.0 + 0.5
  {
    hide Times;
    RoundOnce(f, u, sum);
    TimesMonotone(Times(Times(z, 1.0 - u), 1.0 - u), sum, 1.0 - u);
    TimesMonotone(sum, Times(Times(z, 1.0 + u), 1.0 + u), 1.0 + u);
  }

  // ---------------------------------------------------------------- words and characters

  /** The characters str.split() separates words at, kept abstract. */
  type Space = char -> bool

  /** len(content.split()): maximal runs of non-space characters. */
  function Words(content: string, space: Space): nat
    decreases |content|
  {
    if content == "" then 0
    else if space(content[0]) then Words(content[1..], space)
    else 1 + Words(AfterWord(content[1..], space), space)
  }

  function AfterWord(content: string, space: Space): (rest: string)
    ensures |rest| <= |content|
  {
    if content == "" || space(content[0]) then content else AfterWord(content[1..], space)
  }

  /** Where words begin: at every non-space that follows a space, or nothing. */
  function Beginnings(content: string, space: Space, afterSpace: bool): nat {
    if content == "" then 0
    else
      (if afterSpace && !space(content[0]) then 1 else 0) + Beginnings(content[1..], space, space(content[0]))
  }

  lemma {:induction false} RestOfWord(content: string, space: Space)
    ensures Beginnings(AfterWord(content, space), space, true) == Beginnings(content, space, false)
  {
    if content != "" && !space(content[0]) {
      RestOfWord(content[1..], space);
    }
  }

  /** A word is counted for every beginning. */
  lemma {:induction false} WordsBegin(content: string, space: Space)
    ensures Words(content, space) == Beginnings(content, space, true)
    decreases |content|
  {
    if content != "" {
      if space(content[0]) {
        WordsBegin(content[1..], space);
      } else {
        WordsBegin(AfterWord(content[1..], space), space);
        RestOfWord(content[1..], space);
      }
    }
  }

  lemma {:induction false} WordsAtMostChars(content: string, space: Space)
    ensures Words(content, space) <= |content|
    decreases |content|
  {
    if content != "" {
      if space(content[0]) {
        WordsAtMostChars(content[1..], space);
      } else {
        WordsAtMostChars(AfterWord(content[1..], space), space);
      }
    }
  }

  function BilledInput(messages: seq<string>, space: Space): nat {
    if messages == [] then 0 else Words(messages[0], space) + BilledInput(messages[1..], space)
  }

  function TotalChars(messages: seq<string>): nat {
    if messages == [] then 0 else |messages[0]| + TotalChars(messages[1..])
  }

  function Joined(messages: seq<string>): string {
    if messages == [] then "" else messages[0] + Joined(messages[1..])
  }

  /** The size of a request is the length of all its messages in a row. */
  lemma {:induction false} TotalIsLength(messages: seq<string>)
    ensures TotalChars(messages) == |Joined(messages)|
  {
    if messages != [] {
      TotalIsLength(messages[1..]);
    }
  }

  /** Every message is billed once, and by its words. */
  lemma {:induction false} BilledTogether(a: seq<string>, b: seq<string>, space: Space)
    ensures BilledInput(a + b, space) == BilledInput(a, space) + BilledInput(b, space)
    ensures forall m :: BilledInput([m], space) == Beginnings(m, space, true)
  {
    if a == [] {
      assert a + b == b;
    } else {
      assert (a + b)[1..] == a[1..] + b;
      BilledTogether(a[1..], b, space);
    }
    forall m ensures BilledInput([m], space) == Beginnings(m, space, true) {
      WordsBegin(m, space);
      assert [m][1..] == [];
    }
  }

  lemma {:induction false} BilledAtMostChars(messages: seq<string>, space: Space)
    ensures BilledInput(messages, space) <= TotalChars(messages)
  {
    if messages != [] {
      WordsAtMostChars(messages[0], space);
      BilledAtMostChars(messages[1..], space);
    }
  }

  /** A request within the input cap and the quoted output is never charged above the quote. */
  lemma QuoteBoundsCharge(
    f: Float, r: Rates, space: Space, messages: seq<string>, maxTokens: nat,
    maxInputChars: nat, quotedOutput: nat, charged: string, maxPrice: string)
    requires Monotone(f) && NonNegative(r)
    requires TotalChars(messages) <= maxInputChars && maxTokens <= quotedOutput
    requires charged == FormatAmount(PriceMicros(f, r, BilledInput(messages, space), maxTokens))
    requires maxPrice == FormatAmount(PriceMicros(f, r, maxInputChars, quotedOutput))
    ensures ParseDecimal(charged).Some? && ParseDecimal(maxPrice).Some?
    ensures ParseDecimal(charged).value <= ParseDecimal(maxPrice).value
  {
    BilledAtMostChars(messages, space);
    PriceMonotone(f, r, BilledInput(messages, space), maxTokens, maxInputChars, quotedOutput);
    FormatRoundTrip(PriceMicros(f, r, BilledInput(messages, space), maxTokens));
    FormatRoundTrip(PriceMicros(f, r, maxInputChars, quotedOutput));
  }
}
