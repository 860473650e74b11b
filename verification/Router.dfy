/** Scoring and ranking of providers (scoring.py and resolver.py in packages/router/src/sip_router). */
module Scoring {
  import opened Prelude

  /** Numbers as float(...) reads them; Undecimal when it raises, None when the field is missing. */
  datatype Benchmark = Benchmark(ttftMs: Option<Decimal>, tokensPerSecond: Option<Decimal>)

  /** What scoring reads from a manifest. */
  datatype Provider = Provider(
    baseUrl: string,
    pubkey: Option<string>,      // None: the manifest names no key
    models: seq<string>,
    benchmark: Benchmark,
    inputPer1m: Option<Decimal>,
    outputPer1m: Option<Decimal>,
    privacyModes: seq<string>,
    verified: Check              // outcome of verify_provider_manifest
  )

  datatype Criterion = ModelFit | ExpectedLatency | PriceLevel | ReceiptTrust | Uptime | PrivacyMatch | Unknown(name: string)

  /** A weights dictionary: distinct keys, in some order. */
  type Weights = seq<(Criterion, real)>

  datatype Query = Query(measuredLatencyMs: Option<real>, privacyMode: Option<string>, modelId: Option<string>, weights: Option<Weights>)

  const DEFAULT_WEIGHTS: Weights := [
    (ModelFit, 0.25), (ExpectedLatency, 0.20), (PriceLevel, 0.15),
    (ReceiptTrust, 0.15), (Uptime, 0.10), (PrivacyMatch, 0.10)
  ]

  function Max(a: real, b: real): real { if a >= b then a else b }

  function GetOr(field: Option<Decimal>, default: real): Decimal {
    if field.Some? then field.value else Finite(default)
  }

  function Plus(x: Decimal, y: Decimal): Decimal {
    if x.Undecimal? || y.Undecimal? then Undecimal
    else if x.NaN? || y.NaN? then NaN
    else
      match (x, y)
      case (Finite(a), Finite(b)) => Finite(a + b)
      case (Infinite(p), Infinite(q)) => if p == q then x else NaN
      case (Infinite(_), _) => x
      case _ => y
  }

  function Half(x: Decimal): Decimal {
    if x.Finite? then Finite(x.value / 2.0) else x
  }

  /** max(x, 0.0); NaN stays, because 0.0 > NaN is false. */
  function Floored(x: Decimal): Decimal {
    match x
    case Finite(value) => Finite(Max(value, 0.0))
    case Infinite(positive) => if positive then x else Finite(0.0)
    case _ => x
  }

  /** anchor / (anchor + max(x, 0.0)) */
  function Saturated(anchor: real, x: Decimal): Decimal
    requires anchor > 0.0
  {
    match Floored(x)
    case Finite(value) => Finite(anchor / (anchor + value))
    case Infinite(_) => Finite(0.0)
    case _ => x
  }

  function ModelFitScore(p: Provider, model: Option<string>): real {
    if model.None? then (if p.models != [] then 1.0 else 0.0)
    else if model.value in p.models then 1.0 else 0.0
  }

  /** The cost of one token in milliseconds; NaN > 0 is false. */
  function PerToken(tps: Decimal): Decimal {
    match tps
    case Undecimal => Undecimal
    case Finite(value) => Finite(if value > 0.0 then 1000.0 / value else 2000.0)
    case Infinite(positive) => Finite(if positive then 0.0 else 2000.0)
    case NaN => Finite(2000.0)
  }

  /** Milliseconds to expect: the measurement, or time to first token plus the cost of one token. */
  function EffectiveLatency(p: Provider, measured: Option<real>): Decimal {
    if measured.Some? then Finite(measured.value)
    else Plus(GetOr(p.benchmark.ttftMs, 2000.0), PerToken(GetOr(p.benchmark.tokensPerSecond, 0.0)))
  }

  function LatencyScore(p: Provider, measured: Option<real>): Decimal {
    Saturated(2000.0, EffectiveLatency(p, measured))
  }

  function BlendedRate(p: Provider): Decimal {
    Half(Plus(GetOr(p.inputPer1m, 0.0), GetOr(p.outputPer1m, 0.0)))
  }

  function PriceScore(p: Provider): Decimal {
    Saturated(100.0, BlendedRate(p))
  }

  function PrivacyScore(p: Provider, mode: Option<string>): real {
    if mode.None? || mode.value in p.privacyModes then 1.0 else 0.0
  }

  function TotalWeight(w: Weights): real {
    if w == [] then 0.0 else w[0].1 + TotalWeight(w[1..])
  }

  /** active.get(key, 0.0) */
  function Weight(w: Weights, c: Criterion): real {
    if w == [] then 0.0 else if w[0].0 == c then w[0].1 else Weight(w[1..], c)
  }

  lemma {:induction false} WeightExact(w: Weights, i: nat)
    requires i < |w| && forall j :: 0 <= j < i ==> w[j].0 != w[i].0
    ensures Weight(w, w[i].0) == w[i].1
  {
    if i > 0 {
      WeightExact(w[1..], i - 1);
    }
  }

  lemma {:induction false} NoWeight(w: Weights, c: Criterion)
    requires forall j :: 0 <= j < |w| ==> w[j].0 != c
    ensures Weight(w, c) == 0.0
  {
    if w != [] {
      NoWeight(w[1..], c);
    }
  }

  lemma {:induction false} WeightsAdd(a: Weights, b: Weights)
    ensures TotalWeight(a + b) == TotalWeight(a) + TotalWeight(b)
  {
    if a == [] {
      assert a + b == b;
    } else {
      assert (a + b)[1..] == a[1..] + b;
      WeightsAdd(a[1..], b);
    }
  }

  function Scale(weight: real, subScore: real): real {
    weight * subScore
  }

  function Blend(w: Weights, p: Provider, q: Query, latency: real, price: real): real {
    Scale(Weight(w, ModelFit), ModelFitScore(p, q.modelId))
    + Scale(Weight(w, ExpectedLatency), latency)
    + Scale(Weight(w, PriceLevel), price)
    + Scale(Weight(w, ReceiptTrust), 0.5)
    + Scale(Weight(w, Uptime), 0.5)
    + Scale(Weight(w, PrivacyMatch), PrivacyScore(p, q.privacyMode))
  }

  function Active(q: Query): Weights {
    if q.weights.Some? then q.weights.value else DEFAULT_WEIGHTS
  }

  /** score_provider; Undecimal when it raises. NaN times any weight is NaN. */
  function Score(p: Provider, q: Query): Decimal {
    var w, latency, price := Active(q), LatencyScore(p, q.measuredLatencyMs), PriceScore(p);
    var total := TotalWeight(w);
    if latency.Undecimal? || price.Undecimal? then Undecimal
    else if total <= 0.0 then Finite(0.0)
    else if !latency.Finite? || !price.Finite? then NaN
    else Finite(Blend(w, p, q, latency.value, price.value) / total)
  }

  ghost predicate NonNegative(w: Weights) {
    && (forall i :: 0 <= i < |w| ==> w[i].1 >= 0.0)
    && (forall i, j :: 0 <= i < j < |w| ==> w[i].0 != w[j].0)
  }

  lemma Saturation(anchor: real, x: real)
    requires anchor > 0.0 && x >= 0.0
    ensures 0.0 <= anchor / (anchor + x) <= 1.0
  {
    var y := anchor / (anchor + x);
    assert y * (anchor + x) == anchor;
    assert y > 1.0 ==> y * (anchor + x) > anchor + x;
    assert y < 0.0 ==> y * (anchor + x) < 0.0;
  }

  /** The six known criteria weigh at most as much as the whole dictionary. */
  lemma {:induction false} KnownWeights(w: Weights)
    requires NonNegative(w)
    ensures Weight(w, ModelFit) >= 0.0 && Weight(w, ExpectedLatency) >= 0.0 && Weight(w, PriceLevel) >= 0.0
    ensures Weight(w, ReceiptTrust) >= 0.0 && Weight(w, Uptime) >= 0.0 && Weight(w, PrivacyMatch) >= 0.0
    ensures Weight(w, ModelFit) + Weight(w, ExpectedLatency) + Weight(w, PriceLevel)
          + Weight(w, ReceiptTrust) + Weight(w, Uptime) + Weight(w, PrivacyMatch) <= TotalWeight(w)
  {
    if w != [] {
      KnownWeights(w[1..]);
    }
  }

  lemma ScaleInRange(weight: real, subScore: real)
    requires weight >= 0.0 && 0.0 <= subScore <= 1.0
    ensures 0.0 <= Scale(weight, subScore) <= weight
  {
  }

  lemma BlendInRange(w: Weights, p: Provider, q: Query, latency: real, price: real)
    requires NonNegative(w) && 0.0 <= latency <= 1.0 && 0.0 <= price <= 1.0
    ensures 0.0 <= Blend(w, p, q, latency, price) <= TotalWeight(w)
  {
    KnownWeights(w);
    hide Scale, Weight, TotalWeight, NonNegative;
    ScaleInRange(Weight(w, ModelFit), ModelFitScore(p, q.modelId));
    ScaleInRange(Weight(w, ExpectedLatency), latency);
    ScaleInRange(Weight(w, PriceLevel), price);
    ScaleInRange(Weight(w, ReceiptTrust), 0.5);
    ScaleInRange(Weight(w, Uptime), 0.5);
    ScaleInRange(Weight(w, PrivacyMatch), PrivacyScore(p, q.privacyMode));
  }

  /** A saturated value is a number in [0, 1], unless there is no number to saturate. */
  lemma SaturatedInRange(anchor: real, x: Decimal)
    requires anchor > 0.0
    ensures x.Finite? || x.Infinite? ==> Saturated(anchor, x).Finite? && 0.0 <= Saturated(anchor, x).value <= 1.0
    ensures x.NaN? || x.Undecimal? ==> Saturated(anchor, x) == x
  {
    if Floored(x).Finite? {
      Saturation(anchor, Floored(x).value);
    }
  }

  /** Some field scoring reads makes float(...) raise. */
  predicate Unreadable(p: Provider, q: Query) {
    || GetOr(p.inputPer1m, 0.0).Undecimal? || GetOr(p.outputPer1m, 0.0).Undecimal?
    || (q.measuredLatencyMs.None? &&
          (GetOr(p.benchmark.ttftMs, 2000.0).Undecimal? || GetOr(p.benchmark.tokensPerSecond, 0.0).Undecimal?))
  }

  /** A rate is NaN, or the rates are opposite infinities, or the time to first token is NaN and would be used. */
  predicate Indefinite(p: Provider, q: Query) {
    var input, output := GetOr(p.inputPer1m, 0.0), GetOr(p.outputPer1m, 0.0);
    || input.NaN? || output.NaN?
    || (input.Infinite? && output.Infinite? && input != output)
    || (q.measuredLatencyMs.None? && GetOr(p.benchmark.ttftMs, 2000.0).NaN?)
  }

  lemma RateKind(p: Provider)
    ensures var input, output, rate := GetOr(p.inputPer1m, 0.0), GetOr(p.outputPer1m, 0.0), BlendedRate(p);
            && (rate.Undecimal? <==> input.Undecimal? || output.Undecimal?)
            && (!rate.Undecimal? ==>
                  (rate.NaN? <==> input.NaN? || output.NaN? || (input.Infinite? && output.Infinite? && input != output)))
  {
  }

  lemma LatencyKind(p: Provider, measured: Option<real>)
    ensures var ttft, tps := GetOr(p.benchmark.ttftMs, 2000.0), GetOr(p.benchmark.tokensPerSecond, 0.0);
            var latency := EffectiveLatency(p, measured);
            && (latency.Undecimal? <==> measured.None? && (ttft.Undecimal? || tps.Undecimal?))
            && (!latency.Undecimal? ==> (latency.NaN? <==> measured.None? && ttft.NaN?))
  {
  }

  /** The two sub-scores that read numbers raise, or are NaN, for exactly these reasons. */
  lemma SubScoreKinds(p: Provider, q: Query)
    ensures var latency, price := LatencyScore(p, q.measuredLatencyMs), PriceScore(p);
            && (latency.Undecimal? || price.Undecimal? <==> Unreadable(p, q))
            && (!Unreadable(p, q) ==> (latency.NaN? || price.NaN? <==> Indefinite(p, q)))
            && (latency.Undecimal? || latency.NaN? || (latency.Finite? && 0.0 <= latency.value <= 1.0))
            && (price.Undecimal? || price.NaN? || (price.Finite? && 0.0 <= price.value <= 1.0))
  {
    hide Saturated, EffectiveLatency, BlendedRate, GetOr;
    RateKind(p);
    LatencyKind(p, q.measuredLatencyMs);
    SaturatedInRange(2000.0, EffectiveLatency(p, q.measuredLatencyMs));
    SaturatedInRange(100.0, BlendedRate(p));
  }

  /** Whatever the weights, scoring raises exactly on an unreadable field; without positive weight there is no score. */
  lemma ScoreRaises(p: Provider, q: Query)
    ensures Score(p, q).Undecimal? <==> Unreadable(p, q)
    ensures !Unreadable(p, q) && TotalWeight(Active(q)) <= 0.0 ==> Score(p, q) == Finite(0.0)
  {
    SubScoreKinds(p, q);
    hide TotalWeight, LatencyScore, PriceScore, Unreadable, Indefinite, Blend;
  }

  /** The score, given its sub-scores. */
  lemma ScoreFrom(p: Provider, q: Query)
    requires NonNegative(Active(q))
    requires var latency, price := LatencyScore(p, q.measuredLatencyMs), PriceScore(p);
             && latency.Finite? && price.Finite? && 0.0 <= latency.value <= 1.0 && 0.0 <= price.value <= 1.0
    ensures Score(p, q).Finite? && 0.0 <= Score(p, q).value <= 1.0
  {
    hide Blend, NonNegative, TotalWeight, LatencyScore, PriceScore;
    var x, y := LatencyScore(p, q.measuredLatencyMs).value, PriceScore(p).value;
    if TotalWeight(Active(q)) > 0.0 {
      BlendInRange(Active(q), p, q, x, y);
      Ratio(Blend(Active(q), p, q, x, y), TotalWeight(Active(q)));
    }
  }

  /**
   * With non-negative weights scoring raises exactly on an unreadable field, is NaN exactly when an
   * indefinite number enters under a positive weight, and is otherwise a number in [0, 1].
   */
  lemma ScoreInRange(p: Provider, q: Query)
    requires NonNegative(Active(q))
    ensures Score(p, q).Undecimal? <==> Unreadable(p, q)
    ensures Score(p, q).NaN? <==> !Unreadable(p, q) && Indefinite(p, q) && TotalWeight(Active(q)) > 0.0
    ensures !Score(p, q).Undecimal? && !Score(p, q).NaN? ==> Score(p, q).Finite? && 0.0 <= Score(p, q).value <= 1.0
  {
    SubScoreKinds(p, q);
    ScoreRaises(p, q);
    hide NonNegative, TotalWeight, LatencyScore, PriceScore, Unreadable, Indefinite, Blend;
    if LatencyScore(p, q.measuredLatencyMs).Finite? && PriceScore(p).Finite? {
      ScoreFrom(p, q);
    }
  }

  lemma Ratio(x: real, total: real)
    requires total > 0.0 && 0.0 <= x <= total
    ensures 0.0 <= x / total <= 1.0
  {
    var y := x / total;
    assert y * total == x;
    assert y > 1.0 ==> y * total > total;
    assert y < 0.0 ==> y * total < 0.0;
  }

  /** x <= y; false when either is not a number. */
  predicate Leq(x: Decimal, y: Decimal) {
    match (x, y)
    case (Finite(a), Finite(b)) => a <= b
    case (Infinite(p), Infinite(q)) => !p || q
    case (Infinite(p), Finite(_)) => !p
    case (Finite(_), Infinite(q)) => q
    case _ => false
  }

  /** A total order on numbers and infinities. */
  lemma LeqOrders(x: Decimal, y: Decimal)
    requires (x.Finite? || x.Infinite?) && (y.Finite? || y.Infinite?)
    ensures Leq(x, x) && (Leq(x, y) || Leq(y, x)) && (Leq(x, y) && Leq(y, x) ==> x == y)
    ensures Leq(Infinite(false), x) && Leq(x, Infinite(true))
  {
  }

  lemma SaturatedAntitone(anchor: real, x: Decimal, y: Decimal)
    requires anchor > 0.0 && Leq(x, y)
    ensures Saturated(anchor, x).Finite? && Saturated(anchor, y).Finite?
    ensures Saturated(anchor, y).value <= Saturated(anchor, x).value
  {
    SaturatedInRange(anchor, x);
    SaturatedInRange(anchor, y);
    var a, b := Floored(x), Floored(y);
    if a.Finite? && b.Finite? {
      SaturationAntitone(anchor, a.value, b.value);
    }
  }

  lemma SaturationAntitone(anchor: real, x: real, y: real)
    requires anchor > 0.0 && 0.0 <= x <= y
    ensures anchor / (anchor + y) <= anchor / (anchor + x)
  {
    var u, v := anchor / (anchor + y), anchor / (anchor + x);
    assert u * (anchor + y) == anchor == v * (anchor + x);
    Saturation(anchor, y);
    assert u > v ==> u * (anchor + y) > v * (anchor + y) >= v * (anchor + x) by {
      Saturation(anchor, x);
    }
  }

  lemma ScaleMonotone(weight: real, x: real, y: real)
    requires weight >= 0.0 && x <= y
    ensures Scale(weight, x) <= Scale(weight, y)
  {
  }

  /** a serves the model and the privacy mode whenever b does, costs no more and answers no slower. */
  ghost predicate AtLeastAsGood(a: Provider, b: Provider, q: Query) {
    && (if q.modelId.Some? then q.modelId.value in b.models ==> q.modelId.value in a.models else b.models != [] ==> a.models != [])
    && (q.privacyMode.Some? && q.privacyMode.value in b.privacyModes ==> q.privacyMode.value in a.privacyModes)
    && Leq(BlendedRate(a), BlendedRate(b))
    && Leq(EffectiveLatency(a, q.measuredLatencyMs), EffectiveLatency(b, q.measuredLatencyMs))
  }

  /** The comparison is with any provider whose numbers are definite, itself included. */
  lemma GoodAsItself(p: Provider, q: Query)
    requires !Unreadable(p, q) && !Indefinite(p, q)
    ensures AtLeastAsGood(p, p, q)
  {
    RateKind(p);
    LatencyKind(p, q.measuredLatencyMs);
    hide BlendedRate, EffectiveLatency;
  }

  /** With non-negative weights a provider at least as good in every respect never scores lower. */
  lemma BetterScoresHigher(a: Provider, b: Provider, q: Query)
    requires NonNegative(Active(q)) && AtLeastAsGood(a, b, q)
    ensures Score(a, q).Finite? && Score(b, q).Finite? && Score(a, q).value >= Score(b, q).value
  {
    hide Saturated, Leq, EffectiveLatency, BlendedRate, ModelFitScore, PrivacyScore, TotalWeight, Weight, Scale, NonNegative, Blend;
    var w := Active(q);
    SaturatedAntitone(100.0, BlendedRate(a), BlendedRate(b));
    SaturatedAntitone(2000.0, EffectiveLatency(a, q.measuredLatencyMs), EffectiveLatency(b, q.measuredLatencyMs));
    var la, lb := LatencyScore(a, q.measuredLatencyMs).value, LatencyScore(b, q.measuredLatencyMs).value;
    var pa, pb := PriceScore(a).value, PriceScore(b).value;
    if TotalWeight(w) > 0.0 {
      BlendMonotone(w, a, b, q, la, lb, pa, pb);
      RatioMonotone(Blend(w, b, q, lb, pb), Blend(w, a, q, la, pa), TotalWeight(w));
    }
  }

  lemma BlendMonotone(w: Weights, a: Provider, b: Provider, q: Query, la: real, lb: real, pa: real, pb: real)
    requires NonNegative(w) && AtLeastAsGood(a, b, q) && lb <= la && pb <= pa
    ensures Blend(w, b, q, lb, pb) <= Blend(w, a, q, la, pa)
  {
    assert ModelFitScore(a, q.modelId) >= ModelFitScore(b, q.modelId);
    assert PrivacyScore(a, q.privacyMode) >= PrivacyScore(b, q.privacyMode);
    KnownWeights(w);
    hide AtLeastAsGood, ModelFitScore, PrivacyScore, TotalWeight, Weight, Scale, NonNegative;
    ScaleMonotone(Weight(w, ModelFit), ModelFitScore(b, q.modelId), ModelFitScore(a, q.modelId));
    ScaleMonotone(Weight(w, ExpectedLatency), lb, la);
    ScaleMonotone(Weight(w, PriceLevel), pb, pa);
    ScaleMonotone(Weight(w, PrivacyMatch), PrivacyScore(b, q.privacyMode), PrivacyScore(a, q.privacyMode));
  }

  /** Finite numbers, the fields that are missing filled in. */
  predicate Plain(p: Provider, input: real, output: real, ttft: real, tps: real) {
    && p.inputPer1m in {Some(Finite(input)), if input == 0.0 then None else Some(Finite(input))}
    && p.outputPer1m in {Some(Finite(output)), if output == 0.0 then None else Some(Finite(output))}
    && p.benchmark.ttftMs in {Some(Finite(ttft)), if ttft == 2000.0 then None else Some(Finite(ttft))}
    && p.benchmark.tokensPerSecond in {Some(Finite(tps)), if tps == 0.0 then None else Some(Finite(tps))}
  }

  /** The default score on plain numbers, spelled out: each sub-score with its own weight, out of 0.95. */
  lemma DefaultScore(p: Provider, q: Query, input: real, output: real, ttft: real, tps: real)
    requires q.weights.None? && Plain(p, input, output, ttft, tps)
    ensures var milliseconds := if q.measuredLatencyMs.Some? then q.measuredLatencyMs.value
                                else ttft + if tps > 0.0 then 1000.0 / tps else 2000.0;
            var latency := if milliseconds > 0.0 then 2000.0 / (2000.0 + milliseconds) else 1.0;
            var rate := (input + output) / 2.0;
            var price := if rate > 0.0 then 100.0 / (100.0 + rate) else 1.0;
            var fits := if q.modelId.Some? then q.modelId.value in p.models else |p.models| > 0;
            var private := q.privacyMode.Some? ==> q.privacyMode.value in p.privacyModes;
            Score(p, q) == Finite(((if fits then 0.25 else 0.0) + 0.20 * latency + 0.15 * price + 0.15 * 0.5 + 0.10 * 0.5
                                   + (if private then 0.10 else 0.0)) / 0.95)
  {
    DefaultWeights();
    var w := DEFAULT_WEIGHTS;
    var latency, price := LatencyScore(p, q.measuredLatencyMs), PriceScore(p);
    PlainRate(p, input, output, ttft, tps);
    PlainLatency(p, q.measuredLatencyMs, input, output, ttft, tps);
    hide Weight, TotalWeight, LatencyScore, PriceScore, Plain;
    assert Score(p, q) == Finite(Blend(w, p, q, latency.value, price.value) / 0.95);
  }

  /** Fields may be given, or be missing where the default is meant. */
  lemma PlainFields(p: Provider, input: real, output: real, ttft: real, tps: real)
    requires p.inputPer1m == Some(Finite(input)) || (p.inputPer1m.None? && input == 0.0)
    requires p.outputPer1m == Some(Finite(output)) || (p.outputPer1m.None? && output == 0.0)
    requires p.benchmark.ttftMs == Some(Finite(ttft)) || (p.benchmark.ttftMs.None? && ttft == 2000.0)
    requires p.benchmark.tokensPerSecond == Some(Finite(tps)) || (p.benchmark.tokensPerSecond.None? && tps == 0.0)
    ensures Plain(p, input, output, ttft, tps)
  {
  }

  lemma DefaultWeights()
    ensures TotalWeight(DEFAULT_WEIGHTS) == 0.95
    ensures Weight(DEFAULT_WEIGHTS, ModelFit) == 0.25 && Weight(DEFAULT_WEIGHTS, ExpectedLatency) == 0.20
    ensures Weight(DEFAULT_WEIGHTS, PriceLevel) == 0.15 && Weight(DEFAULT_WEIGHTS, ReceiptTrust) == 0.15
    ensures Weight(DEFAULT_WEIGHTS, Uptime) == 0.10 && Weight(DEFAULT_WEIGHTS, PrivacyMatch) == 0.10
  {
    var w := DEFAULT_WEIGHTS;
    assert w[1..][1..] == w[2..] && w[2..][1..] == w[3..] && w[3..][1..] == w[4..] && w[4..][1..] == w[5..] && w[5..][1..] == [];
  }

  lemma PlainRate(p: Provider, input: real, output: real, ttft: real, tps: real)
    requires Plain(p, input, output, ttft, tps)
    ensures var rate := (input + output) / 2.0; PriceScore(p) == Finite(if rate > 0.0 then 100.0 / (100.0 + rate) else 1.0)
  {
  }

  lemma PlainLatency(p: Provider, measured: Option<real>, input: real, output: real, ttft: real, tps: real)
    requires Plain(p, input, output, ttft, tps)
    ensures var milliseconds := if measured.Some? then measured.value else ttft + if tps > 0.0 then 1000.0 / tps else 2000.0;
            LatencyScore(p, measured) == Finite(if milliseconds > 0.0 then 2000.0 / (2000.0 + milliseconds) else 1.0)
  {
  }

  /** Endless speed costs nothing; a speed that is no number, or none above zero, costs the anchor. */
  lemma TokenCost(p: Provider, ttft: real)
    requires p.benchmark.ttftMs == Some(Finite(ttft))
    ensures p.benchmark.tokensPerSecond == Some(Infinite(true)) ==> EffectiveLatency(p, None) == Finite(ttft)
    ensures p.benchmark.tokensPerSecond in {None, Some(NaN), Some(Infinite(false))} ==>
              EffectiveLatency(p, None) == Finite(ttft + 2000.0)
  {
  }

  lemma RatioMonotone(x: real, y: real, total: real)
    requires total > 0.0 && x <= y
    ensures x / total <= y / total
  {
    var u, v := x / total, y / total;
    assert u * total == x && v * total == y;
    assert u > v ==> u * total > v * total;
  }

  // ---------------------------------------------------------------- ranking

  /** Where in a ranking a new last entry with score x goes: behind every score that is at least x. */
  function Position(order: seq<nat>, scores: seq<real>, x: real): nat
    requires forall i :: 0 <= i < |order| ==> order[i] < |scores|
    ensures Position(order, scores, x) <= |order|
  {
    if order == [] || scores[order[0]] < x then 0 else 1 + Position(order[1..], scores, x)
  }

  /** sorted(..., reverse=True) as an order of indices: stable, by descending score. */
  function Ranking(scores: seq<real>): (order: seq<nat>)
    ensures |order| == |scores| && forall i :: 0 <= i < |order| ==> order[i] < |scores|
  {
    if scores == [] then []
    else
      var n := |scores| - 1;
      var before := Ranking(scores[..n]);
      var k := Position(before, scores[..n], scores[n]);
      before[..k] + [n] + before[k..]
  }

  /** Higher scores first; equal scores in their original order. */
  predicate Before(scores: seq<real>, a: nat, b: nat)
    requires a < |scores| && b < |scores|
  {
    scores[a] > scores[b] || (scores[a] == scores[b] && a < b)
  }

  ghost predicate Ordered(order: seq<nat>, scores: seq<real>) {
    && (forall i :: 0 <= i < |order| ==> order[i] < |scores|)
    && forall i, j :: 0 <= i < j < |order| ==> Before(scores, order[i], order[j])
  }

  /** A stable descending permutation of all the entries. */
  ghost predicate IsRanking(order: seq<nat>, scores: seq<real>) {
    Ordered(order, scores) && |order| == |scores| && forall i :: 0 <= i < |scores| ==> i in order
  }

  lemma {:induction false} PositionSplits(order: seq<nat>, scores: seq<real>, x: real)
    requires Ordered(order, scores)
    ensures var k := Position(order, scores, x);
            && (forall i :: 0 <= i < k ==> scores[order[i]] >= x)
            && (forall i :: k <= i < |order| ==> scores[order[i]] < x)
  {
    if order != [] && scores[order[0]] >= x {
      PositionSplits(order[1..], scores, x);
      assert forall i :: 1 <= i < |order| ==> order[i] == order[1..][i - 1];
    } else if order != [] {
      assert forall i :: 0 < i < |order| ==> Before(scores, order[0], order[i]);
    }
  }

  /** Inserting the last index behind every score at least its own keeps the order. */
  lemma InsertOrdered(before: seq<nat>, scores: seq<real>, k: nat)
    requires scores != [] && Ordered(before, scores[..|scores| - 1]) && k <= |before|
    requires forall i :: 0 <= i < k ==> scores[before[i]] >= scores[|scores| - 1]
    requires forall i :: k <= i < |before| ==> scores[before[i]] < scores[|scores| - 1]
    ensures Ordered(before[..k] + [|scores| - 1] + before[k..], scores)
  {
    var n := |scores| - 1;
    var order := before[..k] + [n] + before[k..];
    forall i, j | 0 <= i < j < |order| ensures Before(scores, order[i], order[j]) {
      if i < k && j < k {
        assert Before(scores[..n], before[i], before[j]);
      } else if i < k && j > k {
        assert Before(scores[..n], before[i], before[j - 1]);
      } else if i > k {
        assert Before(scores[..n], before[i - 1], before[j - 1]);
      }
    }
  }

  lemma InsertComplete(before: seq<nat>, n: nat, k: nat)
    requires k <= |before| && forall i :: 0 <= i < n ==> i in before
    ensures forall i :: 0 <= i <= n ==> i in before[..k] + [n] + before[k..]
  {
    var order := before[..k] + [n] + before[k..];
    forall i | 0 <= i <= n ensures i in order {
      if i < n {
        assert i in before;
        var j :| 0 <= j < |before| && before[j] == i;
        assert order[if j < k then j else j + 1] == i;
      } else {
        assert order[k] == n;
      }
    }
  }

  /** Ranking is a stable descending permutation. */
  lemma {:induction false} RankingCorrect(scores: seq<real>)
    ensures IsRanking(Ranking(scores), scores)
  {
    if scores != [] {
      var n := |scores| - 1;
      var front, before := scores[..n], Ranking(scores[..n]);
      RankingCorrect(front);
      PositionSplits(before, front, scores[n]);
      var k := Position(before, front, scores[n]);
      InsertOrdered(before, scores, k);
      InsertComplete(before, n, k);
      hide Ordered;
    }
  }

  /** There is only one stable descending order, so Ranking is what sorted must return. */
  lemma {:induction false} RankingUnique(a: seq<nat>, b: seq<nat>, scores: seq<real>)
    requires Ordered(a, scores) && Ordered(b, scores) && |a| == |b| && forall i :: i in a <==> i in b
    ensures a == b
    decreases |a|
  {
    if a != [] {
      assert a[0] in b && b[0] in a;
      var i :| 0 <= i < |b| && b[i] == a[0];
      var j :| 0 <= j < |a| && a[j] == b[0];
      assert a[0] == b[0];
      forall x ensures x in a[1..] <==> x in b[1..] {
        TailMember(a, scores, x);
        TailMember(b, scores, x);
      }
      RankingUnique(a[1..], b[1..], scores);
      assert a == [a[0]] + a[1..] && b == [b[0]] + b[1..];
    }
  }

  lemma TailMember(a: seq<nat>, scores: seq<real>, x: nat)
    requires Ordered(a, scores) && a != []
    ensures x in a[1..] <==> x in a && x != a[0]
  {
    forall i | 1 <= i < |a| ensures a[i] != a[0] {
      assert Before(scores, a[0], a[i]);
    }
    if x in a && x != a[0] {
      var i :| 0 <= i < |a| && a[i] == x;
      assert a[1..][i - 1] == x;
    }
  }

  // ---------------------------------------------------------------- sorting scores

  /**
   * The order list.sort leaves some keys in that cannot be compared; only used where the code's order
   * depends on the inner workings of the sort.
   */
  type Sort = seq<Decimal> -> seq<nat>

  /** x < y as floats: false when either is NaN. */
  predicate Ascends(x: Decimal, y: Decimal) {
    Leq(x, y) && !Leq(y, x)
  }

  predicate AllNumbers(keys: seq<Decimal>) {
    forall i :: 0 <= i < |keys| ==> keys[i].Finite?
  }

  /** No key is below its successor, so that a descending sort finds a single run and moves nothing. */
  predicate OneRun(keys: seq<Decimal>) {
    forall i :: 0 <= i < |keys| - 1 ==> !Ascends(keys[i], keys[i + 1])
  }

  predicate IsPermutation(order: seq<nat>, n: nat) {
    && |order| == n
    && (forall i :: 0 <= i < n ==> order[i] < n)
    && (forall i, j :: 0 <= i < j < n ==> order[i] != order[j])
  }

  function Unmoved(n: nat): (order: seq<nat>)
    ensures IsPermutation(order, n) && forall i :: 0 <= i < n ==> order[i] == i
  {
    seq(n, i => i)
  }

  function Values(keys: seq<Decimal>): (values: seq<real>)
    requires AllNumbers(keys)
    ensures |values| == |keys| && forall i :: 0 <= i < |keys| ==> values[i] == keys[i].value
  {
    seq(|keys|, i requires 0 <= i < |keys| => keys[i].value)
  }

  /** sorted(..., reverse=True) on keys that may be NaN. */
  function Sorted(keys: seq<Decimal>, sort: Sort): (order: seq<nat>)
    ensures IsPermutation(order, |keys|)
  {
    if AllNumbers(keys) then
      RankingPermutes(Values(keys));
      Ranking(Values(keys))
    else if !OneRun(keys) && IsPermutation(sort(keys), |keys|) then sort(keys)
    else Unmoved(|keys|)
  }

  lemma RankingPermutes(scores: seq<real>)
    ensures IsPermutation(Ranking(scores), |scores|)
  {
    RankingCorrect(scores);
    var order := Ranking(scores);
    forall i, j | 0 <= i < j < |order| ensures order[i] != order[j] {
      assert Before(scores, order[i], order[j]);
    }
  }

  function Chosen(entries: seq<Provider>, order: seq<nat>): (chosen: seq<Provider>)
    requires forall i :: 0 <= i < |order| ==> order[i] < |entries|
    ensures |chosen| == |order| && forall i :: 0 <= i < |order| ==> chosen[i] == entries[order[i]]
  {
    seq(|order|, i requires 0 <= i < |order| => entries[order[i]])
  }

  function Below(n: nat): (all: set<nat>)
    ensures |all| == n && forall i :: i in all <==> 0 <= i < n
  {
    if n == 0 then {} else Below(n - 1) + {n - 1}
  }

  /** Every index below n occurs in a permutation of n. */
  lemma PermutationOnto(order: seq<nat>, n: nat, x: nat)
    requires IsPermutation(order, n) && x < n
    ensures x in order
  {
    var all, image := Below(n), Elements(order);
    ElementsCount(order);
    forall e | e in image ensures e in all {
      var i :| 0 <= i < |order| && order[i] == e;
    }
    assert all == image + (all - image);
    assert |all| == |image| + |all - image|;
    assert all - image == {};
    assert x in all && x in image;
  }

  lemma {:induction false} ElementsCount(s: seq<nat>)
    requires Distinct(s)
    ensures |Elements(s)| == |s|
  {
    if s != [] {
      var front := s[..|s| - 1];
      ElementsCount(front);
      assert s == front + [s[|s| - 1]];
      assert Elements(s) == Elements(front) + {s[|s| - 1]};
    }
  }

  /** Without its largest index a permutation is one of the others. */
  lemma WithoutLargest(order: seq<nat>, n: nat, k: nat)
    requires IsPermutation(order, n + 1) && k <= n && order[k] == n
    ensures IsPermutation(order[..k] + order[k + 1..], n)
  {
    var rest := order[..k] + order[k + 1..];
    forall i | 0 <= i < n ensures rest[i] == order[if i < k then i else i + 1] {
    }
    forall i, j | 0 <= i < j < n ensures rest[i] != rest[j] {
      assert rest[i] == order[if i < k then i else i + 1] && rest[j] == order[if j < k then j else j + 1];
    }
    forall i | 0 <= i < n ensures rest[i] < n {
      assert rest[i] == order[if i < k then i else i + 1];
      assert order[if i < k then i else i + 1] != order[k];
    }
  }

  lemma ChosenAppend(entries: seq<Provider>, a: seq<nat>, b: seq<nat>)
    requires forall i :: 0 <= i < |a| ==> a[i] < |entries|
    requires forall i :: 0 <= i < |b| ==> b[i] < |entries|
    ensures Chosen(entries, a + b) == Chosen(entries, a) + Chosen(entries, b)
  {
  }

  lemma ChosenFront(entries: seq<Provider>, n: nat, a: seq<nat>)
    requires n <= |entries| && forall i :: 0 <= i < |a| ==> a[i] < n
    ensures Chosen(entries[..n], a) == Chosen(entries, a)
  {
  }

  lemma TakeMiddle(a: seq<Provider>, x: Provider, b: seq<Provider>)
    ensures multiset(a + [x] + b) == multiset(a + b + [x])
  {
  }

  /** A permutation neither loses nor repeats an entry. */
  lemma {:induction false} PermutedCounts(entries: seq<Provider>, order: seq<nat>)
    requires IsPermutation(order, |entries|)
    ensures multiset(Chosen(entries, order)) == multiset(entries)
  {
    hide Chosen;
    if entries == [] {
      assert Chosen(entries, order) == [];
    } else {
      var n := |entries| - 1;
      PermutationOnto(order, n + 1, n);
      var k :| 0 <= k <= n && order[k] == n;
      WithoutLargest(order, n, k);
      var rest := order[..k] + order[k + 1..];
      PermutedCounts(entries[..n], rest);
      ChosenParts(entries, order, k);
      ChosenFront(entries, n, rest);
      TakeMiddle(Chosen(entries, order[..k]), entries[n], Chosen(entries, order[k + 1..]));
      assert multiset(Chosen(entries, order)) == multiset(Chosen(entries, rest) + [entries[n]]);
      assert entries == entries[..n] + [entries[n]];
    }
  }

  lemma ChosenParts(entries: seq<Provider>, order: seq<nat>, k: nat)
    requires k < |order| && forall i :: 0 <= i < |order| ==> order[i] < |entries|
    ensures var a, b := order[..k], order[k + 1..];
            && Chosen(entries, order) == Chosen(entries, a) + [entries[order[k]]] + Chosen(entries, b)
            && Chosen(entries, a + b) == Chosen(entries, a) + Chosen(entries, b)
  {
    var a, b := order[..k], order[k + 1..];
    assert Chosen(entries, [order[k]]) == [entries[order[k]]];
    hide Chosen;
    ChosenAppend(entries, a, b);
    ChosenAppend(entries, a, [order[k]]);
    ChosenAppend(entries, a + [order[k]], b);
    assert order == a + [order[k]] + b;
  }

  // ---------------------------------------------------------------- ranking providers

  function Scores(entries: seq<Provider>, q: Query): (s: seq<Decimal>)
    ensures |s| == |entries|
  {
    seq(|entries|, i requires 0 <= i < |entries| => Score(entries[i], q))
  }

  /** rank_candidates; None when scoring an entry raises. */
  function Rank(entries: seq<Provider>, q: Query, sort: Sort): (ranked: Option<seq<Provider>>) {
    var scores := Scores(entries, q);
    if Undecimal in scores then None else Some(Chosen(entries, Sorted(scores, sort)))
  }

  /** The scores of all entries are numbers. */
  ghost predicate Comparable(entries: seq<Provider>, q: Query) {
    forall p :: p in entries ==> Score(p, q).Finite?
  }

  /** Higher scores first, equal scores in their original order: the order that sorted promises on numbers. */
  ghost predicate BestFirst(ranked: seq<Provider>, q: Query) {
    forall i, j :: 0 <= i < j < |ranked| ==> Leq(Score(ranked[j], q), Score(ranked[i], q))
  }

  /** Ranking loses nobody; it raises exactly when scoring somebody does; and it is best first if all scores are numbers. */
  lemma RankExact(entries: seq<Provider>, q: Query, sort: Sort)
    ensures var ranked := Rank(entries, q, sort);
            && (ranked.None? <==> exists p :: p in entries && Score(p, q).Undecimal?)
            && (ranked.Some? ==> multiset(ranked.value) == multiset(entries))
            && (ranked.Some? && Comparable(entries, q) ==> BestFirst(ranked.value, q))
  {
    hide Score;
    var scores := Scores(entries, q);
    ScoresExact(entries, q);
    if Undecimal !in scores {
      var order := Sorted(scores, sort);
      PermutedCounts(entries, order);
      if Comparable(entries, q) {
        assert AllNumbers(scores) by { forall i | 0 <= i < |scores| ensures scores[i].Finite? { assert entries[i] in entries; } }
        SortedBestFirst(entries, q, sort);
      }
    }
  }

  lemma ScoresExact(entries: seq<Provider>, q: Query)
    ensures Undecimal in Scores(entries, q) <==> exists p :: p in entries && Score(p, q).Undecimal?
  {
    hide Score;
    var scores := Scores(entries, q);
    if Undecimal in scores {
      var i :| 0 <= i < |scores| && scores[i] == Undecimal;
      assert entries[i] in entries;
    }
    if p :| p in entries && Score(p, q).Undecimal? {
      var i :| 0 <= i < |entries| && entries[i] == p;
      assert scores[i] == Undecimal;
    }
  }

  /** On numbers it is the stable descending order: equal scores keep the order in which they come. */
  lemma RankStable(entries: seq<Provider>, q: Query, sort: Sort)
    requires AllNumbers(Scores(entries, q))
    ensures var order := Sorted(Scores(entries, q), sort);
            Rank(entries, q, sort) == Some(Chosen(entries, order)) && IsRanking(order, Values(Scores(entries, q)))
  {
    hide Score;
    RankingCorrect(Values(Scores(entries, q)));
    ScoresExact(entries, q);
  }

  lemma SortedBestFirst(entries: seq<Provider>, q: Query, sort: Sort)
    requires AllNumbers(Scores(entries, q))
    ensures BestFirst(Chosen(entries, Sorted(Scores(entries, q), sort)), q)
  {
    hide Score;
    var scores := Scores(entries, q);
    var values, order := Values(scores), Sorted(scores, sort);
    RankingCorrect(values);
    forall i, j | 0 <= i < j < |order| ensures Leq(Score(entries[order[j]], q), Score(entries[order[i]], q)) {
      assert Before(values, order[i], order[j]);
      assert scores[order[i]].Finite? && scores[order[j]].Finite?;
    }
  }

  function ForModel(registry: seq<Provider>, model: string): seq<Provider> {
    if registry == [] then []
    else
      (if model in registry[0].models then [registry[0]] else []) + ForModel(registry[1..], model)
  }

  function VerifiedOnly(entries: seq<Provider>): seq<Provider> {
    if entries == [] then [] else (if entries[0].verified.Passes? then [entries[0]] else []) + VerifiedOnly(entries[1..])
  }

  lemma {:induction false} ForModelExact(registry: seq<Provider>, model: string)
    ensures forall p :: p in ForModel(registry, model) <==> p in registry && model in p.models
  {
    if registry != [] {
      ForModelExact(registry[1..], model);
      assert registry == [registry[0]] + registry[1..];
    }
  }

  lemma {:induction false} ForModelCounts(registry: seq<Provider>, model: string, p: Provider)
    ensures multiset(ForModel(registry, model))[p] == if model in p.models then multiset(registry)[p] else 0
  {
    if registry != [] {
      ForModelCounts(registry[1..], model, p);
      assert registry == [registry[0]] + registry[1..];
    }
  }

  lemma {:induction false} VerifiedOnlyCounts(entries: seq<Provider>, p: Provider)
    ensures multiset(VerifiedOnly(entries))[p] == if p.verified.Passes? then multiset(entries)[p] else 0
  {
    if entries != [] {
      VerifiedOnlyCounts(entries[1..], p);
      assert entries == [entries[0]] + entries[1..];
    }
  }

  /** Filtering keeps the order of registration. */
  lemma {:induction false} ForModelInOrder(a: seq<Provider>, b: seq<Provider>, model: string)
    ensures ForModel(a + b, model) == ForModel(a, model) + ForModel(b, model)
  {
    if a == [] {
      assert a + b == b;
    } else {
      var first := if model in a[0].models then [a[0]] else [];
      ForModelInOrder(a[1..], b, model);
      assert (a + b)[1..] == a[1..] + b;
      assert first + (ForModel(a[1..], model) + ForModel(b, model)) == (first + ForModel(a[1..], model)) + ForModel(b, model);
    }
  }

  lemma {:induction false} VerifiedOnlyInOrder(a: seq<Provider>, b: seq<Provider>)
    ensures VerifiedOnly(a + b) == VerifiedOnly(a) + VerifiedOnly(b)
  {
    if a == [] {
      assert a + b == b;
    } else {
      var first := if a[0].verified.Passes? then [a[0]] else [];
      VerifiedOnlyInOrder(a[1..], b);
      assert (a + b)[1..] == a[1..] + b;
      assert first + (VerifiedOnly(a[1..]) + VerifiedOnly(b)) == (first + VerifiedOnly(a[1..])) + VerifiedOnly(b);
    }
  }

  lemma {:induction false} VerifiedOnlyExact(entries: seq<Provider>)
    ensures forall p :: p in VerifiedOnly(entries) <==> p in entries && p.verified.Passes?
  {
    if entries != [] {
      VerifiedOnlyExact(entries[1..]);
      assert entries == [entries[0]] + entries[1..];
    }
  }

  /** resolve; None when verifying a manifest or scoring one raises. */
  function Resolve(
    registry: seq<Provider>, model: string, privacyMode: Option<string>, weights: Option<Weights>, verify: bool, sort: Sort)
      : (ranked: Option<seq<Provider>>)
  {
    var all := ForModel(registry, model);
    if verify && SomeRaises(all) then None
    else Rank(if verify then VerifiedOnly(all) else all, Query(None, privacyMode, Some(model), weights), sort)
  }

  predicate SomeRaises(entries: seq<Provider>) {
    exists i :: 0 <= i < |entries| && entries[i].verified.Raises?
  }

  /** Offered for this model. */
  predicate Offers(p: Provider, model: string, verify: bool) {
    model in p.models && (verify ==> p.verified.Passes?)
  }

  /**
   * Resolution offers exactly the providers of the model, each as often as registered, and best first
   * when all their scores are numbers. It raises if and only if verifying one of the model, when asked to,
   * or scoring one on offer does.
   */
  lemma ResolveRanks(
    registry: seq<Provider>, model: string, mode: Option<string>, weights: Option<Weights>, verify: bool, sort: Sort)
    ensures var ranked := Resolve(registry, model, mode, weights, verify, sort);
            var q := Query(None, mode, Some(model), weights);
            && (ranked.None? <==>
                  || (verify && exists p :: p in registry && model in p.models && p.verified.Raises?)
                  || exists p :: p in registry && Offers(p, model, verify) && Score(p, q).Undecimal?)
            && (ranked.Some? ==>
                  && (forall p :: p in ranked.value <==> p in registry && Offers(p, model, verify))
                  && (forall p :: multiset(ranked.value)[p] == if Offers(p, model, verify) then multiset(registry)[p] else 0)
                  && ((forall p :: p in registry && Offers(p, model, verify) ==> Score(p, q).Finite?) ==>
                        BestFirst(ranked.value, q)))
  {
    hide Score, Rank, BestFirst, ForModel, VerifiedOnly, SomeRaises;
    var q := Query(None, mode, Some(model), weights);
    var all := ForModel(registry, model);
    var entries := if verify then VerifiedOnly(all) else all;
    OfferedExact(registry, model, verify);
    RankExact(entries, q, sort);
    var ranked := Rank(entries, q, sort);
    if ranked.Some? {
      SameMembers(ranked.value, entries);
      forall p ensures multiset(entries)[p] == if Offers(p, model, verify) then multiset(registry)[p] else 0 {
        ForModelCounts(registry, model, p);
        VerifiedOnlyCounts(all, p);
      }
    }
  }

  lemma OfferedExact(registry: seq<Provider>, model: string, verify: bool)
    ensures var all := ForModel(registry, model);
            var entries := if verify then VerifiedOnly(all) else all;
            && (forall p :: p in entries <==> p in registry && Offers(p, model, verify))
            && (SomeRaises(all) <==> exists p :: p in registry && model in p.models && p.verified.Raises?)
  {
    var all := ForModel(registry, model);
    ForModelExact(registry, model);
    VerifiedOnlyExact(all);
    if p :| p in registry && model in p.models && p.verified.Raises? {
      assert p in all;
    }
    if SomeRaises(all) {
      var i :| 0 <= i < |all| && all[i].verified.Raises?;
      assert all[i] in all;
    }
  }

  lemma SameMembers(a: seq<Provider>, b: seq<Provider>)
    requires multiset(a) == multiset(b)
    ensures forall p :: p in a <==> p in b
  {
    assert forall p :: p in a <==> p in multiset(a);
    assert forall p :: p in b <==> p in multiset(b);
  }

  /**
   * One provider with a NaN rate breaks the order of the others: between a worse and a better one it keeps
   * the worse in front, whatever the sort does elsewhere.
   */
  lemma NaNRateMisranks(a: Provider, b: Provider, c: Provider, q: Query, sort: Sort)
    requires b.inputPer1m == Some(NaN) && !Unreadable(b, q) && NonNegative(Active(q)) && TotalWeight(Active(q)) > 0.0
    requires Score(a, q).Finite? && Score(c, q).Finite? && Score(a, q).value < Score(c, q).value
    ensures Rank([a, b, c], q, sort) == Some([a, b, c]) && !BestFirst([a, b, c], q)
  {
    ScoreInRange(b, q);
    hide Score, Unreadable, NonNegative, TotalWeight;
    var scores := Scores([a, b, c], q);
    assert scores == [Score(a, q), NaN, Score(c, q)];
    assert scores[1].NaN?;
    assert !AllNumbers(scores) && OneRun(scores);
    assert Chosen([a, b, c], Unmoved(3)) == [a, b, c];
    assert !Leq(Score([a, b, c][2], q), Score([a, b, c][0], q));
  }

  /** In general: nothing moves as long as no score is below the next one. */
  lemma OneRunStays(entries: seq<Provider>, q: Query, sort: Sort)
    requires OneRun(Scores(entries, q)) && Undecimal !in Scores(entries, q)
    ensures Rank(entries, q, sort) == Some(entries)
  {
    hide Score;
    var scores := Scores(entries, q);
    if AllNumbers(scores) {
      DescendingStays(Values(scores));
    }
    assert Chosen(entries, Unmoved(|entries|)) == entries;
  }

  /** Stability: a descending sequence is its own ranking. */
  lemma DescendingStays(scores: seq<real>)
    requires forall i :: 0 <= i < |scores| - 1 ==> scores[i] >= scores[i + 1]
    ensures Ranking(scores) == Unmoved(|scores|)
  {
    hide Ranking, Position;
    var order := Unmoved(|scores|);
    RankingCorrect(scores);
    forall i, j | 0 <= i < j < |scores| ensures Before(scores, order[i], order[j]) {
      Descends(scores, i, j);
    }
    forall x ensures x in order <==> x in Ranking(scores) {
      if 0 <= x < |scores| {
        assert order[x] == x;
      }
    }
    RankingUnique(order, Ranking(scores), scores);
  }

  lemma {:induction false} Descends(scores: seq<real>, i: nat, j: nat)
    requires i <= j < |scores| && forall k :: 0 <= k < |scores| - 1 ==> scores[k] >= scores[k + 1]
    ensures scores[i] >= scores[j]
    decreases j
  {
    if i < j {
      Descends(scores, i, j - 1);
    }
  }
}
