/** The paid completion endpoint (packages/provider-gateway/src/sip_gateway/app.py): verify, serve, commit, record. */
module Gateways {
  import opened Prelude
  import opened Json
  import opened SpentSets
  import opened Payments
  import opened Redemption
  import opened Amounts
  import opened Pricing
  import opened Ledgers
  import opened RateLimiting
  import Documents

  datatype Config = Config(
    pubkey: string,
    allowed: seq<string>,
    maxOutputTokens: int,
    maxInputChars: int,
    unit: string,
    rates: Rates,
    requirePayment: bool,
    issuers: seq<string>
  )

  datatype Body = Body(
    model: Option<string>,
    messages: Json,
    maxTokens: Option<int>,          // with the default filled in; None when it is not an integer
    payment: Payment                 // OtherScheme when "sip_payment" is not an object
  )

  /** Redemption may raise on such a payment: on its signatures, or on times without an equivalent in UTC. */
  predicate Risky(p: Payment): (risky: bool)
    ensures risky ==> p.Pic? || p.X402?
    ensures p.Pic? && p.vouchers.Some? ==>
              (risky <==> exists v :: v in p.vouchers.value && (v.verified == Raises || v.expires == OutOfRange))
    ensures p.X402? && p.assertion.Some? ==>
              (risky <==> p.assertion.value.signed == Raises || p.assertion.value.issued == OutOfRange)
    ensures (p.Pic? && p.vouchers.None?) || (p.X402? && p.assertion.None?) ==> !risky
  {
    match p
    case Pic(Some(vs)) => exists i :: 0 <= i < |vs| && (vs[i].verified.Raises? || vs[i].expires.OutOfRange?)
    case X402(Some(a)) => a.signed.Raises? || a.issued.OutOfRange?
    case _ => false
  }

  lemma CrashIsRisky(call: Call, r: RedeemResult)
    requires Explains(call, r) && r.reason == Crashed
    ensures Risky(call.payment)
  {
  }

  /** A field is missing or not what it should be. */
  predicate Malformed(b: Body) {
    || b.model.None? || b.maxTokens.None? || b.maxTokens.value <= 0 || !b.messages.JArr? || |b.messages.items| == 0
    || exists i :: 0 <= i < |b.messages.items| &&
         !(IsText(Field(b.messages.items[i], "role")) && IsText(Field(b.messages.items[i], "content")))
  }

  datatype ChatRequest = ChatRequest(
    authorized: bool,
    body: Option<Body>,              // None: not a JSON object
    requestId: string
  )

  datatype ChatResult = ChatResult(content: JText, inputTokens: nat, outputTokens: nat)

  /** _valid_messages */
  predicate ValidMessages(messages: Json) {
    && messages.JArr? && messages.items != []
    && forall i :: 0 <= i < |messages.items| ==>
         IsText(Field(messages.items[i], "role")) && IsText(Field(messages.items[i], "content"))
  }

  /** The contents of the messages. */
  function Contents(messages: Json): (c: seq<string>)
    requires ValidMessages(messages)
    ensures |c| == |messages.items|
    ensures forall i :: 0 <= i < |c| ==> c[i] == Shown(Field(messages.items[i], "content"))
  {
    seq(|messages.items|, i requires 0 <= i < |messages.items| => Shown(Field(messages.items[i], "content")))
  }

  /** A receipt can be made: request and answer can be encoded and hashed. */
  predicate Receiptable(b: Body, content: JText)
    requires b.model.Some? && ValidMessages(b.messages)
  {
    Valid(Documents.RequestDocument(b.model.value, b.messages.items)) && content.JStr?
  }

  datatype Reply =
    | Error(status: int)
    | PaymentRequired(price: string, unit: string)
    | Completion(content: string, receiptPrice: string)

  /** The results of the two redemptions, and how many turns at the table the first had taken at its end. */
  datatype Course = Course(check: RedeemResult, commit: RedeemResult, turns: nat)

  function StatusOf(reply: Reply): int {
    match reply
    case Error(status) => status
    case PaymentRequired(_, _) => 402
    case Completion(_, _) => 200
  }

  /** The status of an admitted paid request, from what its steps give: verify, serve, commit, attest. */
  function Decide(check: RedeemResult, served: bool, commit: RedeemResult, receiptable: bool): int {
    if !check.ok then (if check.reason == Crashed then 500 else 402)
    else if !served then 502
    else if !commit.ok then (if commit.reason == Crashed then 500 else 402)
    else if receiptable then 200
    else 500
  }

  /** _payment_refs: what a ledger entry cites. */
  function PaymentRefs(p: Payment): seq<string> {
    match p
    case Pic(Some(vs)) => VoucherRefs(vs)
    case X402(Some(a)) => if a.payer.Some? then [a.payer.value] else []
    case _ => []
  }

  function VoucherRefs(vs: seq<Voucher>): seq<string> {
    if vs == [] then []
    else VoucherRefs(vs[..|vs| - 1]) + if vs[|vs| - 1].id.Some? then [vs[|vs| - 1].id.value] else []
  }

  /** The refs of a redeemed batch are the very keys it consumed, in order. */
  lemma {:induction false} RefsAreKeys(vs: seq<Voucher>)
    requires AllHaveIds(vs)
    ensures VoucherRefs(vs) == Ids(vs)
  {
    if vs != [] {
      var front := vs[..|vs| - 1];
      RefsAreKeys(front);
      assert Ids(vs) == Ids(front) + [vs[|vs| - 1].id.value];
    }
  }

  /** The ref of an assertion is its payer. */
  lemma RefsNamePayer(a: Assertion)
    ensures a.payer.Some? ==> PaymentRefs(X402(Some(a))) == [a.payer.value]
    ensures a.payer.None? ==> PaymentRefs(X402(Some(a))) == []
  {
  }

  class Gateway {
    const config: Config
    const float: Float
    const space: Space
    const store: SpentSet
    const ledger: Ledger?
    const limiter: RateLimiter?

    constructor (config: Config, float: Float, space: Space, store: SpentSet, ledger: Ledger?, limiter: RateLimiter?)
      ensures this.config == config && this.store == store && this.ledger == ledger && this.limiter == limiter
      ensures this.float == float && this.space == space
    {
      this.config := config;
      this.float := float;
      this.space := space;
      this.store := store;
      this.ledger := ledger;
      this.limiter := limiter;
    }

    /** The status a request is refused with before the limiter is asked, in the order of the checks. */
    function Screen(r: ChatRequest): (status: Option<int>)
      ensures status.None? <==> Admitted(r)
      ensures status == Some(401) <==> !r.authorized
      ensures status == Some(400) <==> r.authorized && (r.body.None? || Malformed(r.body.value))
      ensures status == Some(404) <==>
              r.authorized && r.body.Some? && !Malformed(r.body.value) && r.body.value.model.value !in config.allowed
      ensures status.Some? ==> status.value in {400, 401, 404, 413}
    {
      if !r.authorized then Some(401)
      else if r.body.None? then Some(400)
      else
        var b := r.body.value;
        if b.model.None? || !ValidMessages(b.messages) then Some(400)
        else if b.maxTokens.None? || b.maxTokens.value < 1 then Some(400)
        else if b.model.value !in config.allowed then Some(404)
        else if b.maxTokens.value > config.maxOutputTokens || TotalChars(Contents(b.messages)) > config.maxInputChars then Some(413)
        else None
    }

    /** The request survives authentication, parsing, the allowlist and the size caps. */
    predicate Admitted(r: ChatRequest) {
      && r.authorized && r.body.Some?
      && var b := r.body.value;
         && b.model.Some? && ValidMessages(b.messages) && b.maxTokens.Some? && b.maxTokens.value >= 1
         && b.model.value in config.allowed
         && b.maxTokens.value <= config.maxOutputTokens
         && TotalChars(Contents(b.messages)) <= config.maxInputChars
    }

    /** The limiter has room for one more request at this time. */
    ghost predicate HasRoom(clock: real)
      reads limiter
    {
      limiter == null || InWindow(limiter.accepted, clock) < limiter.limit
    }

    /** The price of an admitted request, in millionths. */
    function Price(r: ChatRequest): nat
      requires Admitted(r)
    {
      PriceMicros(float, config.rates, BilledInput(Contents(r.body.value.messages), space), r.body.value.maxTokens.value)
    }

    function RedeemCall(r: ChatRequest, now: real, commit: bool): Call
      requires Admitted(r)
    {
      Call(r.body.value.payment,
           Terms(ToReal(Price(r)), config.unit, config.issuers, now, Some(config.pubkey), Some(r.requestId)),
           commit)
    }

    /** The payment is good for the request at this time: in the gateway's own terms, worth the price. */
    ghost predicate Funds(r: ChatRequest, now: real)
      requires Admitted(r)
    {
      match r.body.value.payment
      case Pic(Some(vs)) =>
        && vs != [] && AllHaveIds(vs) && Distinct(Ids(vs))
        && (forall v :: v in vs ==> Good(v, config.unit, config.issuers, now))
        && Face(vs) >= ToReal(Price(r))
      case X402(Some(a)) =>
        && a.signed.Passes? && a.issued.At? && now - a.issued.time <= 300.0
        && a.unit == Some(config.unit) && a.nonce.Some? && a.nonce.value != ""
        && a.provider == Some(config.pubkey) && a.request == Some(r.requestId)
        && a.amount.Some? && a.amount.value >= ToReal(Price(r))
      case _ => false
    }

    /** What the gateway asks redemption for is just that. */
    lemma FundsExactly(r: ChatRequest, now: real, commit: bool)
      requires Admitted(r)
      ensures Acceptable(RedeemCall(r, now, commit)) <==> Funds(r, now)
      ensures RedeemCall(r, now, commit).payment == r.body.value.payment && RedeemCall(r, now, commit).commit == commit
    {
      hide Good, Face, Gateway.Price, Ids, ValidMessages, Contents, TotalChars;
      var call := RedeemCall(r, now, commit);
      match r.body.value.payment
      case Pic(Some(vs)) =>
        assert (forall v :: v in vs ==> Good(v, config.unit, config.issuers, now)) <==> AllGood(vs, |vs|, call.terms);
      case _ =>
    }

    /** The code redeems as the step machine does on the rows it finds at its turns, up to the given one. */
    ghost predicate Redeems(call: Call, r: RedeemResult, seen0: seq<set<string>>, seen: seq<set<string>>, turns: nat,
                            writes0: seq<Write>, writes: seq<Write>)
    {
      turns <= |seen| && Reached(call, Run(call, Done(r)), seen0, seen[..turns], writes0, writes)
    }

    /** The payment was taken: one entry at the request's price, backed by the keys consumed. */
    ghost predicate Charged(r: ChatRequest, now: real, before: seq<Entry>, after: seq<Entry>,
                            written: seq<Write>, writes: seq<Write>)
    {
      && Admitted(r)
      && (ledger != null ==>
            after == before + [Entry(config.pubkey, FormatAmount(Price(r)), config.unit, PaymentRefs(r.body.value.payment))])
      && Funds(r, now)
      && writes == written + Inserts(Keys(RedeemCall(r, now, true)))
    }

    /** The runtime answered and a receipt for its answer can be made. */
    ghost predicate Answerable(r: ChatRequest, served: Option<ChatResult>)
      requires Admitted(r)
    {
      served.Some? && Receiptable(r.body.value, served.value.content)
    }

    /** The payment is good and none of its keys is spent. */
    ghost predicate Pays(r: ChatRequest, now: real, spent: set<string>)
      requires Admitted(r)
    {
      Funds(r, now) && Elements(Keys(RedeemCall(r, now, true))) !! spent
    }

    /** Redemption that runs alone, in the gateway's terms. */
    lemma RedeemsAlone(r: ChatRequest, now: real, commit: bool, spent: set<string>)
      requires Admitted(r)
      ensures var (result, rows) := Redeem(RedeemCall(r, now, commit), spent);
              && (result.ok <==> Pays(r, now, spent))
              && rows == if result.ok && commit then spent + Elements(Keys(RedeemCall(r, now, true))) else spent
    {
      RedeemAllOrNothing(RedeemCall(r, now, commit), spent);
      FundsExactly(r, now, commit);
      hide Funds, Acceptable;
    }

    /** Both redemptions follow the step machine on the rows they find, and the reply follows from their results. */
    ghost predicate Follows(r: ChatRequest, served: bool, verifyTime: real, commitTime: real, course: Course,
                            seen0: seq<set<string>>, seen: seq<set<string>>, writes0: seq<Write>, writes: seq<Write>)
      requires Admitted(r)
    {
      && Redeems(RedeemCall(r, verifyTime, false), course.check, seen0, seen, course.turns, writes0, writes0)
      && (course.check.ok && served ==>
            && course.turns < |seen|
            && Redeems(RedeemCall(r, commitTime, true), course.commit, seen[..course.turns + 1], seen, |seen|, writes0, writes))
    }

    /** Verify, serve, commit, record; what the request is refused with, or None when the payment was taken. */
    method TakePayment(r: ChatRequest, served: bool, verifyTime: real, commitTime: real)
        returns (refusal: Option<Reply>, ghost course: Course)
      requires Admitted(r)
      modifies store, ledger
      ensures refusal.None? <==> course.check.ok && served && course.commit.ok
      ensures refusal.Some? ==>
                && !refusal.value.Completion? && StatusOf(refusal.value) == Decide(course.check, served, course.commit, true)
                && (refusal.value.PaymentRequired? ==> refusal.value == PaymentRequired(FormatAmount(Price(r)), config.unit))
                && (ledger != null ==> ledger.entries == old(ledger.entries))
                && RolledBack(old(store.writes), store.writes, Keys(RedeemCall(r, commitTime, true)))
                && (!served ==> store.writes == old(store.writes))
      ensures refusal.None? ==> Funds(r, verifyTime)
      ensures !Funds(r, verifyTime) ==> store.writes == old(store.writes)
      ensures !Funds(r, verifyTime) && !Risky(r.body.value.payment) ==>
                refusal == Some(PaymentRequired(FormatAmount(Price(r)), config.unit))
      ensures refusal.None? ==>
                Charged(r, commitTime,
                        if ledger == null then [] else old(ledger.entries),
                        if ledger == null then [] else ledger.entries, old(store.writes), store.writes)
      ensures Follows(r, served, verifyTime, commitTime, course, old(store.seen), store.seen, old(store.writes), store.writes)
      ensures !store.shared ==>
                && (refusal.None? <==> served && Pays(r, verifyTime, old(store.spent)) && Pays(r, commitTime, old(store.spent)))
                && (refusal == Some(Error(502)) <==> !served && Pays(r, verifyTime, old(store.spent)))
                && store.spent == old(store.spent)
                     + if refusal.None? then Elements(Keys(RedeemCall(r, commitTime, true))) else {}
    {
      hide Redeem, Acceptable, Keys, RolledBack, FormatAmount, Price, PaymentRefs, Inserts, Deletes, Pays, Elements, Value,
           Reached, ValidMessages, Contents, TotalChars, Funds, Explains, Risky;
      FundsExactly(r, verifyTime, false);
      FundsExactly(r, commitTime, true);
      NothingWritten(store.writes, Keys(RedeemCall(r, commitTime, true)));
      var required := FormatAmount(Price(r));
      RedeemsAlone(r, verifyTime, false, store.spent);
      RedeemsAlone(r, commitTime, true, store.spent);
      var check := RedeemPayment(RedeemCall(r, verifyTime, false), store);
      course := Course(check, check, |store.seen|);
      assert store.seen[..|store.seen|] == store.seen;
      if check.reason == Crashed {
        CrashIsRisky(RedeemCall(r, verifyTime, false), check);
        return Some(Error(500)), course;
      }
      if !check.ok { return Some(PaymentRequired(required, config.unit)), course; }
      ghost var seen := store.seen;
      store.OthersRun({});
      assert store.seen[..|seen|] == seen && store.seen[..|seen| + 1] == store.seen;
      if !served { return Some(Error(502)), course; }
      ghost var before := store.seen;
      var committed := RedeemPayment(RedeemCall(r, commitTime, true), store);
      course := Course(check, committed, |seen|);
      assert before <= store.seen by {
        ReachedExtends(RedeemCall(r, commitTime, true), committed, before, store.seen, old(store.writes), store.writes);
      }
      assert store.seen[..|seen|] == seen && store.seen[..|seen| + 1] == before && store.seen[..|store.seen|] == store.seen;
      if committed.reason == Crashed { return Some(Error(500)), course; }
      if !committed.ok { return Some(PaymentRequired(required, config.unit)), course; }
      if ledger != null {
        ledger.Record(config.pubkey, required, config.unit, PaymentRefs(r.body.value.payment));
      }
      return None, course;
    }

    lemma ReachedExtends(call: Call, r: RedeemResult, seen0: seq<set<string>>, seen: seq<set<string>>,
                         writes0: seq<Write>, writes: seq<Write>)
      requires Reached(call, Run(call, Done(r)), seen0, seen, writes0, writes)
      ensures seen0 <= seen
    {
    }

    /**
     * POST /v1/chat/completions. `served` is what the runtime returns (None when it raises),
     * `verifyTime` and `commitTime` are the readings of now() at the two redemptions. `charged` says that
     * the payment was taken; Error(500) is an exception that escapes the handler.
     */
    method ChatCompletions(r: ChatRequest, served: Option<ChatResult>, verifyTime: real, commitTime: real, clock: real)
        returns (reply: Reply, ghost charged: bool, ghost course: Course)
      requires limiter != null ==> limiter.Valid() && clock >= limiter.last
      modifies store, ledger, limiter
      ensures limiter != null ==> limiter.Valid()
      ensures Screen(r).Some? ==> reply == Error(Screen(r).value) && (limiter != null ==> unchanged(limiter))
      ensures Admitted(r) ==> (reply == Error(429) <==> !old(HasRoom(clock)))
      ensures reply.Completion? || reply.PaymentRequired? || charged ==> Admitted(r)
      ensures !store.shared && Admitted(r) && old(HasRoom(clock)) && config.requirePayment ==>
                && (charged <==>
                      served.Some? && Pays(r, verifyTime, old(store.spent)) && Pays(r, commitTime, old(store.spent)))
                && (reply == Error(502) <==> served.None? && Pays(r, verifyTime, old(store.spent)))
                && store.spent == old(store.spent) + if charged then Elements(Keys(RedeemCall(r, commitTime, true))) else {}
      ensures reply.PaymentRequired? ==> reply == PaymentRequired(FormatAmount(Price(r)), config.unit)
      ensures reply.Completion? ==>
                Answerable(r, served) && reply.content == served.value.content.s
      ensures reply.Completion? && config.requirePayment ==> charged && reply.receiptPrice == FormatAmount(Price(r))
      ensures charged ==>
                && config.requirePayment && served.Some?
                && (reply.Completion? <==> Answerable(r, served)) && (reply == Error(500) <==> !Answerable(r, served))
      ensures charged ==>
                Charged(r, commitTime,
                        if ledger == null then [] else old(ledger.entries),
                        if ledger == null then [] else ledger.entries, old(store.writes), store.writes)
      ensures reply.Completion? && !config.requirePayment ==>
                reply.receiptPrice
                == FormatAmount(PriceMicros(float, config.rates, served.value.inputTokens, served.value.outputTokens))
      ensures charged ==> Funds(r, verifyTime)
      ensures Admitted(r) && old(HasRoom(clock)) && config.requirePayment && !Funds(r, verifyTime) ==>
                && !charged && store.writes == old(store.writes)
                && (!Risky(r.body.value.payment) ==> reply == PaymentRequired(FormatAmount(Price(r)), config.unit))
      ensures !charged ==> ledger != null ==> ledger.entries == old(ledger.entries)
      ensures !charged && Admitted(r) ==>
                RolledBack(old(store.writes), store.writes, Keys(RedeemCall(r, commitTime, true)))
      ensures !config.requirePayment || !Admitted(r) || served.None? ==> store.writes == old(store.writes)
      ensures Admitted(r) && old(HasRoom(clock)) && config.requirePayment ==>
                && StatusOf(reply) == Decide(course.check, served.Some?, course.commit, Answerable(r, served))
                && Follows(r, served.Some?, verifyTime, commitTime, course, old(store.seen), store.seen,
                           old(store.writes), store.writes)
    {
      hide Acceptable, Keys, RolledBack, FormatAmount, PriceMicros, BilledInput, TotalChars, InWindow, After, RateLimiter.Valid,
           PaymentRefs, Inserts, Deletes, Pays, Elements, Value, ValidMessages, Contents, Receiptable, Follows, Charged, RedeemCall,
           Funds, Risky;
      charged, course := false, Course(Accepted(0.0), Accepted(0.0), 0);
      if Admitted(r) {
        NothingWritten(store.writes, Keys(RedeemCall(r, commitTime, true)));
      }
      if !r.authorized { return Error(401), false, course; }
      if r.body.None? { return Error(400), false, course; }
      var body := r.body.value;
      if body.model.None? || !ValidMessages(body.messages) { return Error(400), false, course; }
      if body.maxTokens.None? || body.maxTokens.value < 1 { return Error(400), false, course; }
      if body.model.value !in config.allowed { return Error(404), false, course; }
      if body.maxTokens.value > config.maxOutputTokens { return Error(413), false, course; }
      var chars := TotalChars(Contents(body.messages));
      if chars > config.maxInputChars { return Error(413), false, course; }
      if limiter != null {
        var allowed := limiter.Allow(clock);
        if !allowed { return Error(429), false, course; }
      }
      var price := FormatAmount(Price(r));
      if config.requirePayment {
        var refusal;
        refusal, course := TakePayment(r, served.Some?, verifyTime, commitTime);
        if refusal.Some? { return refusal.value, false, course; }
        charged := true;
      } else {
        if served.None? { return Error(502), false, course; }
        price := FormatAmount(PriceMicros(float, config.rates, served.value.inputTokens, served.value.outputTokens));
      }
      if !Receiptable(body, served.value.content) { return Error(500), charged, course; }
      ReceiptableContent(body, served.value.content);
      return Completion(served.value.content.s, price), charged, course;
    }

    lemma ReceiptableContent(b: Body, content: JText)
      requires b.model.Some? && ValidMessages(b.messages) && Receiptable(b, content)
      ensures content.JStr?
    {
    }

    /** POST /sip/v1/quote for a known model: the committed maximum. */
    function MaxPrice(maxOutput: nat): string
      requires config.maxInputChars >= 0
    {
      FormatAmount(PriceMicros(float, config.rates, config.maxInputChars, maxOutput))
    }

    /**
     * The price is the words of the messages at the input rate and the tokens asked for at the output rate, per
     * million and so in millionths, up to three roundings on the way and the one to six places.
     */
    lemma PriceFollows(r: ChatRequest, texts: seq<string>, u: real)
      requires Admitted(r) && Accurate(float, u) && NonNegative(config.rates)
      requires var items := r.body.value.messages.items;
               && |texts| == |items|
               && forall i :: 0 <= i < |items| ==> texts[i] == Shown(Field(items[i], "content"))
      ensures var cost := Cost(config.rates, BilledInput(texts, space), r.body.value.maxTokens.value);
              Thrice(cost, 1.0 - u) - 0.5 <= Price(r) as real <= Thrice(cost, 1.0 + u) + 0.5
    {
      assert texts == Contents(r.body.value.messages);
      hide Thrice, Cost, PriceMicros, BilledInput, ValidMessages, Contents, TotalChars, Accurate, Shown, Field;
      PriceAccurate(float, config.rates, BilledInput(texts, space), r.body.value.maxTokens.value, u);
    }

    /** What an admitted request is charged never exceeds a quote for at least its output. */
    lemma QuoteHolds(r: ChatRequest, quotedOutput: nat)
      requires Monotone(float) && NonNegative(config.rates)
      requires Admitted(r) && r.body.value.maxTokens.value <= quotedOutput
      ensures config.maxInputChars >= 0
      ensures ParseDecimal(FormatAmount(Price(r))) == Some(ToReal(Price(r)))
      ensures ParseDecimal(MaxPrice(quotedOutput)).Some?
      ensures ToReal(Price(r)) <= ParseDecimal(MaxPrice(quotedOutput)).value
    {
      var b := r.body.value;
      FormatRoundTrip(Price(r));
      QuoteBoundsCharge(float, config.rates, space, Contents(b.messages), b.maxTokens.value,
                        config.maxInputChars, quotedOutput, FormatAmount(Price(r)), MaxPrice(quotedOutput));
    }
  }

  /** A receipt can be made exactly for messages and content that can be encoded. */
  lemma ReceiptableExactly(b: Body, content: JText)
    requires b.model.Some? && ValidMessages(b.messages)
    ensures Receiptable(b, content) <==> content.JStr? && forall i :: 0 <= i < |b.messages.items| ==> Valid(b.messages.items[i])
  {
    var d := Documents.RequestDocument(b.model.value, b.messages.items);
    assert b.messages == JArr(b.messages.items) == d.members[1].value;
    if Valid(d) {
      assert Valid(d.members[1].value);
    }
    if forall i :: 0 <= i < |b.messages.items| ==> Valid(b.messages.items[i]) {
      assert Valid(JArr(b.messages.items));
      Documents.RequestValid(b.model.value, b.messages.items);
    }
  }

  /**
   * A message with a further field that holds NaN passes every check, and no receipt can be made for it.
   * If the runtime answers it, the payment is taken and the answer withheld.
   */
  lemma NaNMessageUnanswerable(b: Body, content: JText)
    requires b.model.Some?
    requires b.messages == JArr([JObj([Member("role", JStr("user")), Member("content", JStr("x")), Member("n", JFloat("NaN"))])])
    ensures ValidMessages(b.messages) && !Receiptable(b, content)
  {
    hide Field;
    var m := b.messages.items[0];
    FieldAt(m.members, 0);
    FieldAt(m.members, 1);
    assert !Valid(m) by {
      assert "NaN"[0] == 'N';
      assert !Valid(m.members[2].value);
    }
    assert !Valid(b.messages);
    assert Documents.RequestDocument(b.model.value, b.messages.items).members[1].value == b.messages;
  }

  lemma OneVoucherFunds(g: Gateway, r: ChatRequest, v: Voucher, now: real)
    requires g.Admitted(r) && r.body.value.payment == Pic(Some([v])) && v.id.Some?
    requires Good(v, g.config.unit, g.config.issuers, now) && v.denomination.value >= ToReal(g.Price(r))
    ensures g.Funds(r, now) && Keys(g.RedeemCall(r, now, true)) == [v.id.value] && PaymentRefs(r.body.value.payment) == [v.id.value]
  {
    hide Gateway.Price, ToReal, ValidMessages, Contents, TotalChars;
    RefsAreKeys([v]);
    assert Ids([v]) == [v.id.value];
    assert [v][..0] == [];
    assert Face([v]) == v.denomination.value;
  }

  /** End to end, on a private table: one good voucher, one such message, and a runtime that answers. */
  method PayForNothing(g: Gateway, r: ChatRequest, v: Voucher, answer: ChatResult, verifyTime: real, commitTime: real, clock: real)
      returns (reply: Reply)
    requires g.config.requirePayment && !g.store.shared && g.ledger != null && g.limiter == null
    requires g.Admitted(r) && r.body.value.payment == Pic(Some([v])) && v.id.Some? && v.id.value !in g.store.spent
    requires r.body.value.messages
          == JArr([JObj([Member("role", JStr("user")), Member("content", JStr("x")), Member("n", JFloat("NaN"))])])
    requires Good(v, g.config.unit, g.config.issuers, verifyTime) && Good(v, g.config.unit, g.config.issuers, commitTime)
    requires v.denomination.value >= ToReal(g.Price(r))
    modifies g.store, g.ledger
    ensures reply == Error(500)
    ensures g.store.spent == old(g.store.spent) + {v.id.value}
    ensures |g.ledger.entries| == |old(g.ledger.entries)| + 1
    ensures g.ledger.entries[|old(g.ledger.entries)|]
         == Entry(g.config.pubkey, FormatAmount(g.Price(r)), g.config.unit, [v.id.value])
  {
    hide ValidMessages, Receiptable, Good, Gateway.Funds, FormatAmount, Gateway.Price, PaymentRefs, Keys, Ids, Risky, PriceMicros,
         ToReal, Contents, Malformed, TotalChars, Gateway.Follows, Decide, StatusOf, RolledBack, Inserts, RateLimiter.Valid,
         InWindow, Face, Gateway.RedeemCall;
    NaNMessageUnanswerable(r.body.value, answer.content);
    OneVoucherFunds(g, r, v, verifyTime);
    OneVoucherFunds(g, r, v, commitTime);
    ghost var charged, course;
    reply, charged, course := g.ChatCompletions(r, Some(answer), verifyTime, commitTime, clock);
  }

  /** The same for content that UTF-8 cannot encode, in a message or in the answer. */
  lemma LoneContentUnanswerable(b: Body, content: JText, i: nat)
    requires b.model.Some? && ValidMessages(b.messages)
    requires content.JLone? || (i < |b.messages.items| && b.messages.items[i].JObj? && Field(b.messages.items[i], "content").JLone?)
    ensures !Receiptable(b, content)
  {
    if content.JStr? {
      var m := b.messages.items[i];
      FieldMember(m.members, "content");
      assert !Valid(m);
      assert !Valid(b.messages);
      assert Documents.RequestDocument(b.model.value, b.messages.items).members[1].value == b.messages;
    }
  }

  lemma {:induction false} FieldMember(ms: seq<Member>, key: string)
    requires Get(ms, key).Some?
    ensures exists k :: 0 <= k < |ms| && ms[k] == Member(key, Get(ms, key).value)
  {
    if ms[0].key == key {
      assert ms[0] == Member(key, Get(ms, key).value);
    } else {
      FieldMember(ms[1..], key);
      var k :| 0 <= k < |ms[1..]| && ms[1..][k] == Member(key, Get(ms[1..], key).value);
      assert ms[k + 1] == Member(key, Get(ms, key).value);
    }
  }
}
