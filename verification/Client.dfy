/** What the routing client reads off replies (packages/router/src/sip_router/client.py). */
module Replies {
  import opened Prelude
  import opened Json
  import opened Documents

  /** The libraries the client calls, as oracles. */
  datatype Library = Library(
    verify: Verifier,                  // Ed25519
    hash: Hash,                        // SHA-256
    receiptSchema: Json -> bool,
    quoteSchema: Json -> bool,
    decimal: Json -> Decimal,          // Decimal(str(value))
    text: Json -> string,              // str(value), for values that are not strings
    moment: string -> Moment           // datetime.fromisoformat(text).astimezone(UTC)
  )

  /** One HTTP exchange. */
  datatype Exchange =
    | Fault                            // an httpx error
    | Crash                            // any other exception, such as for a request that cannot be encoded
    | Reply(status: int, body: Json)   // JNull for a body that is not JSON

  /** choices[0].message.content when it is a string, JNull otherwise. */
  function Content(body: Json): (content: Json)
    ensures content == JNull || IsText(content)
  {
    var choices := Field(body, "choices");
    if !choices.JArr? || choices.items == [] then JNull
    else
      var content := Field(Field(choices.items[0], "message"), "content");
      if IsText(content) then content else JNull
  }

  /** There is an answer exactly when the first choice holds a message with a text, and it is that text. */
  lemma ContentExact(body: Json)
    ensures var choices := Field(body, "choices");
            && (Content(body) != JNull <==>
                  choices.JArr? && |choices.items| > 0 && IsText(Field(Field(choices.items[0], "message"), "content")))
            && (Content(body) != JNull ==> Content(body) == Field(Field(choices.items[0], "message"), "content"))
  {
  }

  /** A completion as gateways write it is answered with its first choice, however many there are. */
  lemma AnswerRead(text: string, index: Json, role: string, more: seq<Json>)
    ensures var message := JObj([Member("role", JStr(role)), Member("content", JStr(text))]);
            var choice := JObj([Member("index", index), Member("message", message)]);
            Content(JObj([Member("choices", JArr([choice] + more))])) == JStr(text)
  {
    hide Field;
    var message := JObj([Member("role", JStr(role)), Member("content", JStr(text))]);
    var choice := JObj([Member("index", index), Member("message", message)]);
    FieldAt([Member("choices", JArr([choice] + more))], 0);
    FieldAt(message.members, 1);
    FieldAt(choice.members, 1);
  }

  /** Python's truth value. */
  predicate Falsy(j: Json) {
    match j
    case JNull => true
    case JBool(b) => !b
    case JInt(i) => i == 0
    case JFloat(t) => t == "0.0" || t == "-0.0"
    case JStr(s) => s == ""
    case JArr(items) => items == []
    case JObj(ms) => ms == []
    case JLone(_) => false
  }

  /** receipt or {} */
  function OrEmpty(receipt: Json): (r: Json)
    ensures r == if receipt in {JNull, JBool(false), JInt(0), JFloat("0.0"), JFloat("-0.0"), JStr(""), JArr([])} then JObj([])
                 else receipt
  {
    if Falsy(receipt) then JObj([]) else receipt
  }

  /** Whatever else the schemas demand: plain decimal prices, and a unit that is a string. */
  predicate ReceiptSchema(receipt: Json, lib: Library) {
    lib.receiptSchema(receipt) && lib.decimal(Field(receipt, "price_amount")).Finite?
  }

  predicate QuoteSchema(quote: Json, lib: Library) {
    lib.quoteSchema(quote) && lib.decimal(Field(quote, "max_price")).Finite? && Field(quote, "price_units").JStr?
  }

  /** Schema and signature together: the schema never raises, but the signature is checked in any case. */
  function Signed(document: Json, schemaOk: bool, lib: Library): Check {
    match CheckDocument(document, lib.verify, "provider_pubkey", "signature")
    case Raises => Raises
    case Fails => Fails
    case Passes => if schemaOk then Passes else Fails
  }

  /** _receipt_trusted */
  function ReceiptTrusted(receipt: Json, pubkey: Option<string>, content: Json, lib: Library): Check
    requires IsText(content)
  {
    if Dict(receipt).None? then Fails
    else
      var valid := Signed(receipt, ReceiptSchema(receipt, lib), lib);
      if !valid.Passes? then valid
      else if pubkey.None? || Field(receipt, "provider_pubkey") != JStr(pubkey.value) then Fails
      else if content.JLone? then Raises
      else if Field(receipt, "response_hash") == JStr(HashResponseBody(lib.hash, content.s)) then Passes
      else Fails
  }

  /** Not expired yet. */
  function Current(quote: Json, now: real, lib: Library): Check {
    var raw := Field(quote, "expires_at");
    if !raw.JStr? then Fails
    else
      match lib.moment(raw.s)
      case NotATime => Fails
      case OutOfRange => Raises
      case At(time) => if now < time then Passes else Fails
  }

  /** charged <= committed */
  function AtMost(charged: Decimal, committed: Decimal): Check {
    if charged.Undecimal? || committed.Undecimal? then Fails
    else if charged.NaN? || committed.NaN? then Raises
    else if NoMore(charged, committed) then Passes else Fails
  }

  predicate NoMore(charged: Decimal, committed: Decimal)
    requires charged.Finite? || charged.Infinite?
    requires committed.Finite? || committed.Infinite?
  {
    match (charged, committed)
    case (Finite(x), Finite(y)) => x <= y
    case (Infinite(positive), Finite(_)) => !positive
    case (_, Infinite(positive)) => positive || charged == committed
  }

  /** _quote_honored */
  function QuoteHonored(quote: Json, receipt: Json, pubkey: Option<string>, now: real, lib: Library): Check {
    if pubkey.None? || Field(quote, "provider_pubkey") != JStr(pubkey.value) then Fails
    else if !Current(quote, now, lib).Passes? then Current(quote, now, lib)
    else if Dict(receipt).None? || Field(receipt, "price_units") != Field(quote, "price_units") then Fails
    else AtMost(lib.decimal(Field(receipt, "price_amount")), lib.decimal(Field(quote, "max_price")))
  }

  /** The document is signed by this key. */
  predicate SignedBy(document: Json, pubkey: Option<string>, lib: Library) {
    && pubkey.Some? && document.JObj? && Signable(document.members, "signature")
    && Field(document, "provider_pubkey") == JStr(pubkey.value) && Field(document, "signature").JStr?
    && lib.verify(pubkey.value, SigningBytes(document.members, "signature"), Field(document, "signature").s)
  }

  /** The provider's receipt for exactly this content. */
  predicate Attests(receipt: Json, pubkey: Option<string>, content: Json, lib: Library) {
    && SignedBy(receipt, pubkey, lib) && content.JStr?
    && Field(receipt, "response_hash") == JStr(HashResponseBody(lib.hash, content.s))
  }

  /** The provider's quote, still running, with a receipt in its unit that charges no more than it commits to. */
  predicate Honours(receipt: Json, quote: Json, pubkey: Option<string>, now: real, lib: Library) {
    && SignedBy(quote, pubkey, lib)
    && Field(quote, "expires_at").JStr?
    && lib.moment(Field(quote, "expires_at").s).At? && now < lib.moment(Field(quote, "expires_at").s).time
    && Field(receipt, "price_units") == Field(quote, "price_units") != JNull
    && var charged, committed := lib.decimal(Field(receipt, "price_amount")), lib.decimal(Field(quote, "max_price"));
       && committed.Finite?
       && (charged == Infinite(false) || (charged.Finite? && charged.value <= committed.value))
  }

  /** A receipt is trusted exactly when it follows the schema and attests the content; it is then no empty object. */
  lemma TrustAttests(receipt: Json, pubkey: Option<string>, content: Json, lib: Library)
    requires IsText(content)
    ensures ReceiptTrusted(receipt, pubkey, content, lib).Passes? <==>
            Attests(receipt, pubkey, content, lib) && ReceiptSchema(receipt, lib)
    ensures Attests(receipt, pubkey, content, lib) ==> OrEmpty(receipt) == receipt
  {
  }

  /** A valid quote passes the last check exactly when the receipt honours it. */
  lemma HonouredHonours(quote: Json, receipt: Json, pubkey: Option<string>, now: real, lib: Library)
    requires Signed(quote, QuoteSchema(quote, lib), lib).Passes?
    ensures QuoteHonored(quote, receipt, pubkey, now, lib).Passes? <==> Honours(receipt, quote, pubkey, now, lib)
    ensures Honours(receipt, quote, pubkey, now, lib) ==> OrEmpty(receipt) == receipt
  {
  }

  /** A dict that names a key and a signature but cannot be encoded without the latter. */
  predicate Unencodable(document: Json) {
    && Dict(document).Some? && IsText(Field(document, "provider_pubkey")) && IsText(Field(document, "signature"))
    && (document.JLone? || !Signable(document.members, "signature"))
  }

  /**
   * Trusting a receipt raises if and only if it names a key and a signature and cannot be encoded
   * without the latter, or is a valid receipt of this provider for content that cannot be encoded.
   */
  lemma TrustRaises(receipt: Json, pubkey: Option<string>, content: Json, lib: Library)
    requires IsText(content)
    ensures ReceiptTrusted(receipt, pubkey, content, lib).Raises? <==>
            || Unencodable(receipt)
            || (content.JLone? && SignedBy(receipt, pubkey, lib) && ReceiptSchema(receipt, lib))
  {
  }

  /**
   * For a valid quote, the last check raises if and only if the quote is the provider's own and either its
   * expiry has no UTC equivalent, or it is running and a receipt in its unit names NaN as the price.
   */
  lemma HonouredRaises(quote: Json, receipt: Json, pubkey: Option<string>, now: real, lib: Library)
    requires Signed(quote, QuoteSchema(quote, lib), lib).Passes?
    ensures QuoteHonored(quote, receipt, pubkey, now, lib).Raises? <==>
            && SignedBy(quote, pubkey, lib) && Field(quote, "expires_at").JStr?
            && var expires := lib.moment(Field(quote, "expires_at").s);
               || expires.OutOfRange?
               || (expires.At? && now < expires.time && Field(receipt, "price_units") == Field(quote, "price_units")
                   && lib.decimal(Field(receipt, "price_amount")).NaN?)
  {
  }
}

/** The routing client: ranked failover with reactive payment (packages/router/src/sip_router/client.py). */
module Client {
  import opened Prelude
  import opened Json
  import opened Replies
  import opened Scoring
  import opened Wallets
  import Documents

  /** Everything one provider sends, or fails to send, during one attempt. */
  datatype Behaviour = Behaviour(
    health: Exchange,
    quote: Exchange,
    completion: Exchange,
    paid: Exchange,                 // the retry of the completion, with a payment
    now: real                       // the clock when the quote is checked
  )

  datatype Settings = Settings(verifyReceipts: bool, getQuote: bool, hasX402Key: bool, lib: Library, sort: Sort)

  datatype Label =
    | Ok | Unhealthy | QuoteInvalid | TransportError | HttpStatus(code: int)
    | MalformedResponse | ReceiptUnverified | QuoteViolated
    | PaymentRejected | PaymentNeeded | FundsShort

  /** What an attempt hands back to the loop. */
  datatype Outcome =
    | Served(content: Json, receipt: Json, quote: Option<Json>)
    | Skipped(why: Label)
    | Raised                        // an exception that is not an httpx error

  /** What the caller is promised about a served answer. */
  predicate Trustworthy(o: Outcome, p: Provider, now: real, s: Settings)
    requires o.Served?
  {
    && (s.verifyReceipts ==> Attests(o.receipt, p.pubkey, o.content, s.lib))
    && (o.quote.Some? <==> s.getQuote)
    && (o.quote.Some? ==> Honours(o.receipt, o.quote.value, p.pubkey, now, s.lib))
  }

  lemma TrustworthyMeans(o: Outcome, p: Provider, now: real, s: Settings)
    requires o.Served? && Trustworthy(o, p, now, s)
    ensures o.quote.Some? <==> s.getQuote
    ensures s.verifyReceipts ==> Attests(o.receipt, p.pubkey, o.content, s.lib)
    ensures s.getQuote ==> Honours(o.receipt, o.quote.value, p.pubkey, now, s.lib)
  {
  }

  /** The wallet's notes, none for no wallet. */
  ghost function NotesOf(wallet: Wallet?): seq<Note>
    reads wallet
  {
    if wallet == null then [] else wallet.vouchers
  }

  /** From a wallet of distinct notes, exactly `gone` has left. */
  ghost predicate Conserved(before: seq<Note>, after: seq<Note>, gone: seq<Note>) {
    Distinct(before) ==> Distinct(after) && multiset(after) + multiset(gone) == multiset(before)
  }

  // ---------------------------------------------------------------- payment

  function Challenge(body: Json): Json {
    Field(body, "sip_payment_required")
  }

  function Price(body: Json, lib: Library): Decimal {
    lib.decimal(Field(Challenge(body), "price_amount"))
  }

  function Unit(body: Json, lib: Library): string {
    var unit := Field(Challenge(body), "price_units");
    if unit.JStr? then unit.s else lib.text(unit)
  }

  predicate Accepts(body: Json, scheme: string) {
    var accepted := Field(Challenge(body), "accepted_schemes");
    accepted.JArr? && JStr(scheme) in accepted.items
  }

  /** A price or unit that no signature can cover. */
  predicate Unsignable(body: Json) {
    var price, unit := Field(Challenge(body), "price_amount"), Field(Challenge(body), "price_units");
    (IsText(price) && price.JLone?) || (IsText(unit) && unit.JLone?)
  }

  /** A payment for a challenge: vouchers taken from the wallet, or an x402 signature. */
  datatype Prepared = Unpayable(why: Label) | Unpreparable | WithNotes(notes: seq<Note>) | WithX402

  /** What a challenge can be answered with. */
  datatype Means = Refuses(why: Label) | Throws | Notes | Signature

  /** `held` is the balance in a unit, None without a wallet. */
  function MeansFor(body: Json, s: Settings, held: Option<string -> real>): (m: Means)
    ensures m.Refuses? ==> m.why != Ok
  {
    if Dict(Challenge(body)).None? then Refuses(PaymentNeeded)
    else if held.Some? && Accepts(body, "pic") then
      var price := Price(body, s.lib);
      if price.Undecimal? || price.NaN? then Throws
      else if !AtLeast(held.value(Unit(body, s.lib)), price) then Refuses(FundsShort)
      else Notes
    else if s.hasX402Key && Accepts(body, "x402") then
      if Unsignable(body) then Throws else Signature
    else Refuses(PaymentNeeded)
  }

  /** Exactly when a challenge is paid with notes or with a signature, cannot be paid, or tears the call down. */
  lemma MeansExact(body: Json, s: Settings, held: Option<string -> real>)
    ensures var challenge := Field(body, "sip_payment_required");
            var price, accepted := s.lib.decimal(Field(challenge, "price_amount")), Field(challenge, "accepted_schemes");
            var amount, unit := Field(challenge, "price_amount"), Field(challenge, "price_units");
            var asked := Dict(challenge).Some? && accepted.JArr?;
            var notes := asked && held.Some? && JStr("pic") in accepted.items;
            var signature := asked && !notes && s.hasX402Key && JStr("x402") in accepted.items;
            var funds := if held.Some? then held.value(if unit.JStr? then unit.s else s.lib.text(unit)) else 0.0;
            var lone := (amount.JLone? && amount.shown.JStr?) || (unit.JLone? && unit.shown.JStr?);
            var m := MeansFor(body, s, held);
            && (m.Notes? <==> notes && (price == Infinite(false) || (price.Finite? && price.value <= funds)))
            && (m == Refuses(FundsShort) <==> notes && (price == Infinite(true) || (price.Finite? && funds < price.value)))
            && (m.Signature? <==> signature && !lone)
            && (m.Throws? <==> (notes && (price.Undecimal? || price.NaN?)) || (signature && lone))
            && (m.Refuses? ==> m.why in {PaymentNeeded, FundsShort})
  {
  }

  /** The balances of the notes held, unit by unit. */
  function Balances(notes: seq<Note>): string -> real {
    unit => FaceOf(notes, Some(unit))
  }

  ghost function Held(wallet: Wallet?): Option<string -> real>
    reads wallet
  {
    if wallet == null then None else Some(Balances(wallet.vouchers))
  }

  /** _prepare_payment */
  method PreparePayment(body: Json, s: Settings, wallet: Wallet?) returns (p: Prepared)
    modifies wallet
    ensures match MeansFor(body, s, old(Held(wallet)))
            case Refuses(why) => p == Unpayable(why)
            case Throws => p == Unpreparable
            case Signature => p == WithX402
            case Notes => p.WithNotes?
    ensures !p.WithNotes? ==> NotesOf(wallet) == old(NotesOf(wallet))
    ensures p.WithNotes? ==>
              && wallet != null
              && ShortestReaching(p.notes, OfUnit(old(wallet.vouchers), Unit(body, s.lib)), Price(body, s.lib))
              && Covers(p.notes, body, s.lib)
              && (Distinct(old(wallet.vouchers)) ==>
                    && Distinct(wallet.vouchers + p.notes)
                    && multiset(wallet.vouchers) + multiset(p.notes) == multiset(old(wallet.vouchers)))
  {
    hide ShortestReaching, OfUnit, FaceOf, Covers;
    if Dict(Challenge(body)).None? {
      return Unpayable(PaymentNeeded);
    }
    if wallet != null && Accepts(body, "pic") {
      var selection := wallet.Select(Price(body, s.lib), Unit(body, s.lib));
      match selection {
        case BadAmount => return Unpreparable;
        case InsufficientFunds => return Unpayable(FundsShort);
        case Picked(notes) =>
          PickedCovers(notes, old(wallet.vouchers), body, s.lib);
          return WithNotes(notes);
      }
    }
    if s.hasX402Key && Accepts(body, "x402") {
      return if Unsignable(body) then Unpreparable else WithX402;
    }
    return Unpayable(PaymentNeeded);
  }

  lemma GiveBack(before: seq<Note>, rest: seq<Note>, notes: seq<Note>)
    requires Distinct(before) ==> Distinct(rest + notes) && multiset(rest) + multiset(notes) == multiset(before)
    ensures Conserved(before, rest + notes, []) && Conserved(before, rest, notes)
  {
    assert multiset(rest + notes) == multiset(rest) + multiset(notes);
    if Distinct(before) {
      assert forall i :: 0 <= i < |rest| ==> (rest + notes)[i] == rest[i];
    }
  }

  /** Fail over; notes reserved for this provider return to the wallet. */
  method Failover(why: Label, reserved: Option<seq<Note>>, wallet: Wallet?) returns (o: Outcome)
    requires why != Ok && (reserved.Some? ==> wallet != null)
    modifies wallet
    ensures o.Skipped? && o.why == (if reserved.Some? then PaymentRejected else why)
    ensures NotesOf(wallet) == old(NotesOf(wallet)) + if reserved.Some? then reserved.value else []
  {
    if reserved.None? {
      return Skipped(why);
    }
    wallet.Add(reserved.value);
    return Skipped(PaymentRejected);
  }

  // ---------------------------------------------------------------- the verdict on a provider

  /** What the checks say of a completion; their order is the client's. */
  datatype Finding = Sound | Flawed(why: Label) | Explodes

  function Inspect(reply: Exchange, quote: Option<Json>, p: Provider, now: real, s: Settings): (f: Finding)
    requires reply.Reply?
    ensures f.Flawed? ==> f.why != Ok
  {
    if reply.status != 200 then Flawed(HttpStatus(reply.status))
    else if Content(reply.body).JNull? then Flawed(MalformedResponse)
    else
      var receipt := Field(reply.body, "sip_receipt");
      var trusted := if s.verifyReceipts then ReceiptTrusted(receipt, p.pubkey, Content(reply.body), s.lib) else Passes;
      if trusted.Raises? then Explodes
      else if trusted.Fails? then Flawed(ReceiptUnverified)
      else
        var honoured := if quote.Some? then QuoteHonored(quote.value, receipt, p.pubkey, now, s.lib) else Passes;
        if honoured.Raises? then Explodes
        else if honoured.Fails? then Flawed(QuoteViolated)
        else Sound
  }

  /** Each finding says what the reply is like. */
  lemma InspectExact(reply: Exchange, quote: Option<Json>, p: Provider, now: real, s: Settings)
    requires reply.Reply? && (quote.Some? ==> Signed(quote.value, QuoteSchema(quote.value, s.lib), s.lib).Passes?)
    ensures var content, receipt := Content(reply.body), Field(reply.body, "sip_receipt");
            var answers := reply.status == 200 && !content.JNull?;
            var attested := answers &&
                            (s.verifyReceipts ==> Attests(receipt, p.pubkey, content, s.lib) && ReceiptSchema(receipt, s.lib));
            var f := Inspect(reply, quote, p, now, s);
            && (f.Sound? <==> attested && (quote.Some? ==> Honours(receipt, quote.value, p.pubkey, now, s.lib)))
            && (f.Flawed? && f.why.HttpStatus? <==> reply.status != 200)
            && (reply.status != 200 ==> f == Flawed(HttpStatus(reply.status)))
            && (f == Flawed(MalformedResponse) <==> reply.status == 200 && content.JNull?)
            && (f == Flawed(ReceiptUnverified) ==> answers && !attested)
            && (f == Flawed(QuoteViolated) ==> attested && quote.Some? && !Honours(receipt, quote.value, p.pubkey, now, s.lib))
            && (f.Flawed? ==> f.why.HttpStatus? || f.why in {MalformedResponse, ReceiptUnverified, QuoteViolated})
  {
    hide ReceiptTrusted, QuoteHonored, Signed, QuoteSchema, ReceiptSchema, Attests, Honours, Content, Field;
    if !Content(reply.body).JNull? {
      TrustAttests(Field(reply.body, "sip_receipt"), p.pubkey, Content(reply.body), s.lib);
    }
    if quote.Some? {
      HonouredHonours(quote.value, Field(reply.body, "sip_receipt"), p.pubkey, now, s.lib);
    }
  }

  /** How an attempt on one provider ends; `paying` when notes are reserved at that moment. */
  datatype Verdict = Serves | Skips(why: Label) | Escapes(paying: bool)

  datatype Quoting = Stops(v: Verdict) | Goes(quote: Option<Json>)

  /** _fetch_quote, when quotes are asked for. */
  function Quoted(b: Behaviour, s: Settings): (q: Quoting)
    ensures q.Stops? ==> q.v == Escapes(false) || q.v == Skips(TransportError) || q.v == Skips(QuoteInvalid)
    ensures q.Goes? ==>
              && q.quote == (if s.getQuote && b.quote.Reply? then Some(b.quote.body) else None)
              && (q.quote.Some? <==> s.getQuote)
              && (q.quote.Some? ==>
                    && b.quote.status == 200 && QuoteSchema(q.quote.value, s.lib)
                    && Signed(q.quote.value, QuoteSchema(q.quote.value, s.lib), s.lib).Passes?)
  {
    if !s.getQuote then Goes(None)
    else
      match b.quote
      case Fault => Stops(Skips(TransportError))
      case Crash => Stops(Escapes(false))
      case Reply(status, body) =>
        if status != 200 || Dict(body).None? then Stops(Skips(QuoteInvalid))
        else
          match Signed(body, QuoteSchema(body, s.lib), s.lib)
          case Raises => Stops(Escapes(false))
          case Fails => Stops(Skips(QuoteInvalid))
          case Passes => Goes(Some(body))
  }

  predicate Healthy(reply: Exchange)
    requires reply.Reply?
  {
    reply.status == 200 && Field(reply.body, "status") == JStr("ok")
  }

  function Judge(p: Provider, b: Behaviour, s: Settings, held: Option<string -> real>): Verdict {
    if b.health.Fault? then Skips(TransportError)
    else if b.health.Crash? then Escapes(false)
    else if !Healthy(b.health) then Skips(Unhealthy)
    else
      var quoting := Quoted(b, s);
      if quoting.Stops? then quoting.v
      else if !Asked(b) then JudgeReply(b.completion, quoting.quote, p, b, s, false)
      else
        match MeansFor(b.completion.body, s, held)
        case Refuses(why) => Skips(why)
        case Throws => Escapes(false)
        case Notes => JudgeReply(b.paid, quoting.quote, p, b, s, true)
        case Signature => JudgeReply(b.paid, quoting.quote, p, b, s, false)
  }

  /** The provider answers the completion with a payment challenge. */
  predicate Asked(b: Behaviour) {
    b.completion.Reply? && b.completion.status == 402
  }

  /** With notes at stake every flaw of the reply is a rejected payment. */
  function JudgeReply(reply: Exchange, quote: Option<Json>, p: Provider, b: Behaviour, s: Settings, reserved: bool): Verdict {
    match reply
    case Fault => Skips(TransportError)
    case Crash => Escapes(reserved)
    case Reply(_, _) =>
      match Inspect(reply, quote, p, b.now, s)
      case Sound => Serves
      case Explodes => Escapes(reserved)
      case Flawed(why) => Skips(if reserved then PaymentRejected else why)
  }

  /**
   * A provider serves if and only if it is healthy; quotes, when asked to, within its schema; can be paid, when
   * it asks for that; and its last reply answers 200 with a text, attested by its receipt when receipts are
   * verified, at a price that honours the quote when there is one.
   */
  lemma ServesExactly(p: Provider, b: Behaviour, s: Settings, held: Option<string -> real>)
    ensures var asked := b.completion.Reply? && b.completion.status == 402;
            var last := if asked then b.paid else b.completion;
            Judge(p, b, s, held).Serves? <==>
            && b.health.Reply? && b.health.status == 200 && Field(b.health.body, "status") == JStr("ok")
            && (asked ==> var m := MeansFor(b.completion.body, s, held); m.Notes? || m.Signature?)
            && last.Reply? && last.status == 200 && !Content(last.body).JNull?
            && var receipt := Field(last.body, "sip_receipt");
               && (s.verifyReceipts ==>
                     && Attests(receipt, p.pubkey, Content(last.body), s.lib)
                     && s.lib.receiptSchema(receipt) && s.lib.decimal(Field(receipt, "price_amount")).Finite?)
               && (s.getQuote ==>
                     && b.quote.Reply? && b.quote.status == 200
                     && s.lib.quoteSchema(b.quote.body) && s.lib.decimal(Field(b.quote.body, "max_price")).Finite?
                     && Field(b.quote.body, "price_units").JStr?
                     && Honours(receipt, b.quote.body, p.pubkey, b.now, s.lib))
  {
    hide Inspect, Attests, Honours, Content, MeansFor, Signed;
    var last := if b.completion.Reply? && b.completion.status == 402 then b.paid else b.completion;
    if b.quote.Reply? && last.Reply? && QuoteSchema(b.quote.body, s.lib) {
      var receipt := Field(last.body, "sip_receipt");
      if Honours(receipt, b.quote.body, p.pubkey, b.now, s.lib) {
        HonouredIsSigned(b.quote.body, receipt, p.pubkey, b.now, s.lib);
      }
    }
    var quoting := Quoted(b, s);
    if last.Reply? && quoting.Goes? {
      InspectExact(last, quoting.quote, p, b.now, s);
    }
  }

  lemma HonouredIsSigned(quote: Json, receipt: Json, pubkey: Option<string>, now: real, lib: Library)
    requires Honours(receipt, quote, pubkey, now, lib) && QuoteSchema(quote, lib)
    ensures Dict(quote).Some? && Signed(quote, QuoteSchema(quote, lib), lib).Passes?
  {
  }

  /** The reply that decides an attempt: the paid retry's when there is one. */
  function Final(b: Behaviour): Exchange {
    if Asked(b) then b.paid else b.completion
  }

  /** The answer in a final reply. */
  function AnswerOf(b: Behaviour, s: Settings): (o: Outcome)
    requires Final(b).Reply?
    ensures o.Served?
  {
    Served(Content(Final(b).body), OrEmpty(Field(Final(b).body, "sip_receipt")),
           if s.getQuote && b.quote.Reply? then Some(b.quote.body) else None)
  }

  /** Notes are put at stake for this provider. */
  predicate Stakes(b: Behaviour, s: Settings, held: Option<string -> real>) {
    Asked(b) && MeansFor(b.completion.body, s, held).Notes?
  }

  /**
   * The notes that left for a provider: none, or notes in the unit of its challenge that are worth its price,
   * the last of them needed for it. Nothing leaves for a price of nothing.
   */
  ghost predicate Given(gone: seq<Note>, staked: bool, b: Behaviour, s: Settings) {
    if !staked then gone == [] else Asked(b) && Covers(gone, b.completion.body, s.lib)
  }

  ghost predicate Covers(gone: seq<Note>, body: Json, lib: Library) {
    var challenge := Field(body, "sip_payment_required");
    var price, unit := lib.decimal(Field(challenge, "price_amount")), Field(challenge, "price_units");
    && (forall x :: x in gone ==> x.voucher.unit == Some(if unit.JStr? then unit.s else lib.text(unit)))
    && match price
       case Finite(value) =>
         && (gone == [] <==> value <= 0.0) && value <= (if gone == [] then 0.0 else FaceOf(gone, None))
         && (gone != [] ==> FaceOf(gone[..|gone| - 1], None) < value)
       case Infinite(positive) => !positive && gone == []
       case _ => false
  }

  /** What the wallet gives for a challenge covers it. */
  lemma PickedCovers(picked: seq<Note>, notes: seq<Note>, body: Json, lib: Library)
    requires ShortestReaching(picked, OfUnit(notes, Unit(body, lib)), Price(body, lib))
    ensures Covers(picked, body, lib)
  {
    PickedInUnit(notes, Unit(body, lib), picked);
    hide OfUnit;
    assert FaceOf([], None) == 0.0;
    if picked != [] {
      assert picked[..0] == [];
      assert !AtLeast(FaceOf(picked[..|picked| - 1], None), Price(body, lib));
    }
  }

  /** The end of an attempt, once the deciding reply is there. */
  method Conclude(p: Provider, b: Behaviour, quote: Option<Json>, s: Settings, reserved: Option<seq<Note>>, wallet: Wallet?)
      returns (o: Outcome, ghost gone: seq<Note>)
    requires reserved.Some? ==> wallet != null
    requires (quote.Some? <==> s.getQuote) && (quote.Some? ==> Signed(quote.value, QuoteSchema(quote.value, s.lib), s.lib).Passes?)
    modifies wallet
    ensures gone == (if reserved.Some? && !o.Skipped? then reserved.value else [])
    ensures NotesOf(wallet)
         == if reserved.Some? && o.Skipped? then old(NotesOf(wallet)) + reserved.value else old(NotesOf(wallet))
    ensures match JudgeReply(Final(b), quote, p, b, s, reserved.Some?)
            case Skips(why) => o == Skipped(why) && o.why != Ok
            case Escapes(paying) => o == Raised && paying == reserved.Some?
            case Serves =>
              && Final(b).Reply?
              && o == Served(Content(Final(b).body), OrEmpty(Field(Final(b).body, "sip_receipt")), quote)
              && Trustworthy(o, p, b.now, s)
  {
    hide Trustworthy, Inspect, Signed;
    var reply := if b.completion.Reply? && b.completion.status == 402 then b.paid else b.completion;
    ghost var at := if reserved.Some? then reserved.value else [];
    assert NotesOf(wallet) + [] == NotesOf(wallet);
    match reply {
      case Fault =>
        if reserved.Some? {
          wallet.Add(reserved.value);
        }
        return Skipped(TransportError), [];
      case Crash =>
        return Raised, at;
      case Reply(_, _) =>
    }
    var finding := Inspect(reply, quote, p, b.now, s);
    match finding {
      case Flawed(why) =>
        o := Failover(why, reserved, wallet);
        return o, [];
      case Explodes =>
        return Raised, at;
      case Sound =>
        SoundTrustworthy(reply, quote, p, b.now, s);
        return Served(Content(reply.body), OrEmpty(Field(reply.body, "sip_receipt")), quote), at;
    }
  }

  /** One provider: health, optional quote, completion, and one paid retry on a 402. */
  method TryCandidate(p: Provider, b: Behaviour, s: Settings, wallet: Wallet?)
      returns (o: Outcome, ghost gone: seq<Note>)
    modifies wallet
    ensures Conserved(old(NotesOf(wallet)), NotesOf(wallet), gone)
    ensures match Judge(p, b, s, old(Held(wallet)))
            case Skips(why) => o == Skipped(why) && gone == []
            case Escapes(paying) => o == Raised && Given(gone, paying, b, s)
            case Serves =>
              && Final(b).Reply? && o == AnswerOf(b, s) && Trustworthy(o, p, b.now, s)
              && Given(gone, Stakes(b, s, old(Held(wallet))), b, s)
    ensures o.Skipped? ==> o.why != Ok
  {
    hide Conserved, ShortestReaching, FaceOf, Distinct, OfUnit, Trustworthy, MeansFor, Signed, AtLeast, JudgeReply, Quoted, Covers;
    ghost var before := NotesOf(wallet);
    NothingGone(before);
    match b.health {
      case Fault => return Skipped(TransportError), [];
      case Crash => return Raised, [];
      case Reply(_, _) =>
    }
    if !Healthy(b.health) {
      return Skipped(Unhealthy), [];
    }
    var quoting := Quoted(b, s);
    if quoting.Stops? {
      return if quoting.v.Skips? then Skipped(quoting.v.why) else Raised, [];
    }
    var reserved: Option<seq<Note>> := None;
    if b.completion.Reply? && b.completion.status == 402 {
      var prepared := PreparePayment(b.completion.body, s, wallet);
      match prepared {
        case Unpayable(why) => return Skipped(why), [];
        case Unpreparable => return Raised, [];
        case WithNotes(notes) =>
          reserved := Some(notes);
          GiveBack(before, wallet.vouchers, notes);
        case WithX402 =>
      }
    }
    o, gone := Conclude(p, b, quoting.quote, s, reserved, wallet);
  }

  /** A sound reply keeps the promise. */
  lemma SoundTrustworthy(reply: Exchange, quote: Option<Json>, p: Provider, now: real, s: Settings)
    requires reply.Reply? && Inspect(reply, quote, p, now, s).Sound?
    requires (quote.Some? <==> s.getQuote) && (quote.Some? ==> Signed(quote.value, QuoteSchema(quote.value, s.lib), s.lib).Passes?)
    ensures Trustworthy(Served(Content(reply.body), OrEmpty(Field(reply.body, "sip_receipt")), quote), p, now, s)
  {
    hide ReceiptTrusted, QuoteHonored, Signed, QuoteSchema, Attests, Honours, Content, OrEmpty;
    var receipt := Field(reply.body, "sip_receipt");
    if s.verifyReceipts {
      TrustAttests(receipt, p.pubkey, Content(reply.body), s.lib);
    }
    if quote.Some? {
      HonouredHonours(quote.value, receipt, p.pubkey, now, s.lib);
    }
  }

  lemma NothingGone(notes: seq<Note>)
    ensures Conserved(notes, notes, [])
  {
  }

  // ---------------------------------------------------------------- chat

  datatype Attempt = Attempt(baseUrl: string, why: Label)

  datatype ChatResult =
    | Routed(content: Json, receipt: Json, quote: Option<Json>, providerPubkey: string, baseUrl: string, attempts: seq<Attempt>)
    | NoProvider(attempts: seq<Attempt>)
    | Escaped                      // an exception that is not NoProviderAvailable

  /** candidates[:maxProviders], a negative bound counting from the end. */
  function Truncate(candidates: seq<Provider>, maxProviders: Option<int>): (t: seq<Provider>)
    ensures t <= candidates
    ensures maxProviders.None? ==> |t| == |candidates|
    ensures maxProviders.Some? ==>
              var n := if maxProviders.value < 0 then |candidates| + maxProviders.value else maxProviders.value;
              |t| == if n < 0 then 0 else if n < |candidates| then n else |candidates|
  {
    if maxProviders.None? || maxProviders.value >= |candidates| then candidates
    else if maxProviders.value >= 0 then candidates[..maxProviders.value]
    else if maxProviders.value + |candidates| >= 0 then candidates[..maxProviders.value + |candidates|]
    else []
  }

  /** The verdict as chat sees it: naming the key of a provider that has none raises after it has served. */
  function Ends(p: Provider, b: Behaviour, s: Settings, held: Option<string -> real>): Verdict {
    var v := Judge(p, b, s, held);
    if v.Serves? && p.pubkey.None? then Escapes(Stakes(b, s, held)) else v
  }

  /** The attempts follow the ranking from its head, and none of them but possibly the last is ok. */
  ghost predicate Followed(attempts: seq<Attempt>, candidates: seq<Provider>) {
    && |attempts| <= |candidates|
    && (forall i :: 0 <= i < |attempts| ==> attempts[i].baseUrl == candidates[i].baseUrl)
    && (forall i :: 0 <= i < |attempts| - 1 ==> attempts[i].why != Ok)
  }

  lemma ConservedTwice(a: seq<Note>, b: seq<Note>, c: seq<Note>, gone: seq<Note>)
    requires Conserved(a, b, []) && Conserved(b, c, gone)
    ensures Conserved(a, c, gone)
  {
    assert multiset(b) + multiset([]) == multiset(b);
  }

  ghost predicate SameFunds(held: Option<string -> real>, held': Option<string -> real>) {
    held.Some? == held'.Some? && (held.Some? ==> forall u :: held.value(u) == held'.value(u))
  }

  /** Balances are all an attempt looks at. */
  lemma SameJudgement(p: Provider, b: Behaviour, s: Settings, held: Option<string -> real>, held': Option<string -> real>)
    requires SameFunds(held, held')
    ensures Judge(p, b, s, held) == Judge(p, b, s, held') && Stakes(b, s, held) == Stakes(b, s, held')
  {
    hide Inspect, Quoted;
    if b.completion.Reply? {
      assert MeansFor(b.completion.body, s, held) == MeansFor(b.completion.body, s, held');
    }
  }

  /** A failed attempt leaves every balance what it was. */
  lemma SameBalances(before: seq<Note>, after: seq<Note>)
    requires Distinct(before) && Conserved(before, after, [])
    ensures forall u :: Balances(before)(u) == Balances(after)(u)
  {
    assert multiset(after) + multiset([]) == multiset(after);
    forall u ensures Balances(before)(u) == Balances(after)(u) {
      FacePermuted(before, after, Some(u));
    }
  }

  /**
   * The outcome a call must have: every provider passed over is skipped for its own verdict, and the
   * call stops at the first verdict that is not a skip. All verdicts are on the initial balances.
   */
  ghost predicate Explained(
    r: ChatResult, candidates: seq<Provider>, world: nat -> Behaviour, s: Settings, held: Option<string -> real>)
  {
    match r
    case NoProvider(attempts) => |attempts| == |candidates| && AllSkipped(attempts, |attempts|, candidates, world, s, held)
    case Routed(content, receipt, quote, pubkey, baseUrl, attempts) =>
      var n := |attempts| - 1;
      && 0 <= n < |candidates| && AllSkipped(attempts, n, candidates, world, s, held)
      && attempts[n] == Attempt(candidates[n].baseUrl, Ok)
      && Ends(candidates[n], world(n), s, held).Serves?
      && Final(world(n)).Reply? && Served(content, receipt, quote) == AnswerOf(world(n), s)
      && Some(pubkey) == candidates[n].pubkey && baseUrl == candidates[n].baseUrl
    case Escaped =>
      exists n, paying :: 0 <= n < |candidates| && EscapesAt(n, paying, candidates, world, s, held)
  }

  ghost predicate AllSkipped(
    attempts: seq<Attempt>, n: nat, candidates: seq<Provider>, world: nat -> Behaviour, s: Settings,
    held: Option<string -> real>)
  {
    && n <= |attempts| && n <= |candidates|
    && forall i :: 0 <= i < n ==>
         && attempts[i].baseUrl == candidates[i].baseUrl
         && Ends(candidates[i], world(i), s, held) == Skips(attempts[i].why)
  }

  /** The call is torn down at the n-th candidate; `paying` when notes are reserved at that moment. */
  ghost predicate EscapesAt(
    n: nat, paying: bool, candidates: seq<Provider>, world: nat -> Behaviour, s: Settings, held: Option<string -> real>)
  {
    && n < |candidates| && Ends(candidates[n], world(n), s, held) == Escapes(paying)
    && forall i :: 0 <= i < n ==> Ends(candidates[i], world(i), s, held).Skips?
  }

  /** Notes are lost: the call is torn down while notes are reserved for a provider that asked for some. */
  ghost predicate Loses(
    candidates: seq<Provider>, world: nat -> Behaviour, s: Settings, held: Option<string -> real>)
  {
    exists n :: 0 <= n < |candidates| && EscapesAt(n, true, candidates, world, s, held) && Charges(world(n), s)
  }

  /** The challenge is for more than nothing. */
  predicate Charges(b: Behaviour, s: Settings) {
    && Asked(b)
    && var price := s.lib.decimal(Field(Field(b.completion.body, "sip_payment_required"), "price_amount"));
       price != Infinite(false) && !(price.Finite? && price.value <= 0.0)
  }

  /** Where a call stops: the first candidate not skipped, or the end of the list. */
  lemma StopsAt(
    r: ChatResult, candidates: seq<Provider>, world: nat -> Behaviour, s: Settings, held: Option<string -> real>)
      returns (n: nat)
    requires Explained(r, candidates, world, s, held)
    ensures n <= |candidates|
    ensures forall i :: 0 <= i < n ==> Ends(candidates[i], world(i), s, held).Skips?
    ensures n < |candidates| ==> !Ends(candidates[n], world(n), s, held).Skips?
    ensures r.NoProvider? <==> n == |candidates|
    ensures r.Routed? <==> n < |candidates| && Ends(candidates[n], world(n), s, held).Serves?
    ensures r.Routed? ==> |r.attempts| == n + 1
  {
    hide Ends, Final, AnswerOf;
    match r
    case NoProvider(attempts) => n := |candidates|;
    case Routed(_, _, _, _, _, attempts) => n := |attempts| - 1;
    case Escaped =>
      var m, paying :| 0 <= m < |candidates| && EscapesAt(m, paying, candidates, world, s, held);
      n := m;
  }

  /** A call that ends in a result, or is torn down with nothing at stake, loses nothing. */
  lemma NotLost(
    r: ChatResult, n: nat, paying: bool, candidates: seq<Provider>, world: nat -> Behaviour, s: Settings,
    held: Option<string -> real>)
    requires if r.Escaped? then EscapesAt(n, paying, candidates, world, s, held) else Explained(r, candidates, world, s, held)
    ensures Loses(candidates, world, s, held) <==> r.Escaped? && paying && Charges(world(n), s)
  {
    hide Ends, Final, AnswerOf, Charges;
    if Loses(candidates, world, s, held) {
      var m :| 0 <= m < |candidates| && EscapesAt(m, true, candidates, world, s, held) && Charges(world(m), s);
      if r.Escaped? {
        assert m == n;
      } else {
        var _ := StopsAt(r, candidates, world, s, held);
      }
    }
  }

  lemma SkippedNext(
    attempts: seq<Attempt>, why: Label, candidates: seq<Provider>, world: nat -> Behaviour, s: Settings,
    held: Option<string -> real>)
    requires |attempts| < |candidates| && AllSkipped(attempts, |attempts|, candidates, world, s, held)
    requires Judge(candidates[|attempts|], world(|attempts|), s, held) == Skips(why)
    ensures AllSkipped(attempts + [Attempt(candidates[|attempts|].baseUrl, why)], |attempts| + 1, candidates, world, s, held)
  {
    hide Judge;
  }

  lemma RoutedExplained(
    attempts: seq<Attempt>, o: Outcome, candidates: seq<Provider>, world: nat -> Behaviour, s: Settings,
    held: Option<string -> real>)
    requires |attempts| < |candidates| && AllSkipped(attempts, |attempts|, candidates, world, s, held)
    requires var p, b := candidates[|attempts|], world(|attempts|);
             Judge(p, b, s, held).Serves? && Final(b).Reply? && o == AnswerOf(b, s) && p.pubkey.Some?
    ensures var p := candidates[|attempts|];
            var r := Routed(o.content, o.receipt, o.quote, p.pubkey.value, p.baseUrl, attempts + [Attempt(p.baseUrl, Ok)]);
            Explained(r, candidates, world, s, held) && !Loses(candidates, world, s, held)
  {
    hide Judge, Final, AnswerOf;
    var p := candidates[|attempts|];
    var r := Routed(o.content, o.receipt, o.quote, p.pubkey.value, p.baseUrl, attempts + [Attempt(p.baseUrl, Ok)]);
    assert Explained(r, candidates, world, s, held);
    NotLost(r, 0, false, candidates, world, s, held);
  }

  /** The providers tried, best first; None when ranking them raises. */
  function Candidates(
    registry: seq<Provider>, model: string, privacyMode: string, weights: Option<Weights>, maxProviders: Option<int>, sort: Sort)
      : Option<seq<Provider>>
  {
    var ranked := Resolve(registry, model, Some(privacyMode), weights, false, sort);
    if ranked.None? then None else Some(Truncate(ranked.value, maxProviders))
  }

  /** chat: walk the (truncated) ranking until a provider serves a trustworthy answer. */
  method Chat(
    registry: seq<Provider>, model: string, privacyMode: string, weights: Option<Weights>, maxProviders: Option<int>,
    world: nat -> Behaviour, s: Settings, wallet: Wallet?)
      returns (r: ChatResult, ghost sent: seq<Note>, ghost lost: seq<Note>)
    modifies wallet
    ensures Conserved(old(NotesOf(wallet)), NotesOf(wallet), sent + lost)
    ensures (!r.Routed? ==> sent == []) && (!r.Escaped? ==> lost == [])
    ensures match Candidates(registry, model, privacyMode, weights, maxProviders, s.sort)
            case None => r == Escaped && lost == [] && NotesOf(wallet) == old(NotesOf(wallet))
            case Some(candidates) =>
              && (r.Routed? ==>
                    && r.attempts != [] && Followed(r.attempts, candidates)
                    && r.attempts[|r.attempts| - 1].why == Ok
                    && (r.quote.Some? <==> s.getQuote)
                    && var n := |r.attempts| - 1;
                       && (s.verifyReceipts ==> Attests(r.receipt, candidates[n].pubkey, r.content, s.lib))
                       && (s.getQuote ==> Honours(r.receipt, r.quote.value, candidates[n].pubkey, world(n).now, s.lib)))
              && (r.NoProvider? ==> Followed(r.attempts, candidates))
              && (Distinct(old(NotesOf(wallet))) ==>
                    && Explained(r, candidates, world, s, old(Held(wallet)))
                    && (lost != [] <==> Loses(candidates, world, s, old(Held(wallet))))
                    && (r.Routed? ==>
                          var n := |r.attempts| - 1;
                          Given(sent, Stakes(world(n), s, old(Held(wallet))), world(n), s)))
  {
    hide Candidates, Conserved, Trustworthy, Attests, Honours, Judge, Balances, Final, AnswerOf, Distinct, Given, Stakes,
         Charges, Loses, AllSkipped, EscapesAt, Explained;
    sent, lost := [], [];
    ghost var start, funds := NotesOf(wallet), Held(wallet);
    NothingGone(start);
    var ranked := Candidates(registry, model, privacyMode, weights, maxProviders, s.sort);
    if ranked.None? {
      assert sent + lost == [];
      return Escaped, [], [];
    }
    var candidates := ranked.value;
    var attempts: seq<Attempt> := [];
    NoneSkipped(candidates, world, s, funds);
    for i := 0 to |candidates|
      invariant sent == lost == [] && Conserved(start, NotesOf(wallet), [])
      invariant |attempts| == i && Followed(attempts, candidates)
      invariant forall k :: 0 <= k < i ==> attempts[k].why != Ok
      invariant Distinct(start) ==> AllSkipped(attempts, i, candidates, world, s, funds)
    {
      var p := candidates[i];
      ghost var held, balances := NotesOf(wallet), Held(wallet);
      if Distinct(start) {
        if wallet != null {
          SameBalances(start, held);
        }
        SameJudgement(p, world(i), s, funds, balances);
      }
      var outcome;
      ghost var gone;
      outcome, gone := TryCandidate(p, world(i), s, wallet);
      ConservedTwice(start, held, NotesOf(wallet), gone);
      if outcome.Skipped? {
        if Distinct(start) {
          SkippedNext(attempts, outcome.why, candidates, world, s, funds);
        }
        attempts := attempts + [Attempt(p.baseUrl, outcome.why)];
        continue;
      }
      if outcome.Served? && p.pubkey.Some? {
        if Distinct(start) {
          RoutedExplained(attempts, outcome, candidates, world, s, funds);
        }
        TrustworthyMeans(outcome, p, world(i).now, s);
        attempts := attempts + [Attempt(p.baseUrl, Ok)];
        r := Routed(outcome.content, outcome.receipt, outcome.quote, p.pubkey.value, p.baseUrl, attempts);
        sent, lost := gone, [];
      } else {
        if Distinct(start) {
          LostExactly(i, attempts, candidates, world, s, funds, gone);
        }
        r := Escaped;
        sent, lost := [], gone;
      }
      assert sent + lost == gone;
      return r, sent, lost;
    }
    r := NoProvider(attempts);
    assert sent + lost == [];
    if Distinct(start) {
      NoneServed(attempts, candidates, world, s, funds);
    }
  }

  lemma NoneSkipped(candidates: seq<Provider>, world: nat -> Behaviour, s: Settings, held: Option<string -> real>)
    ensures AllSkipped([], 0, candidates, world, s, held)
  {
  }

  lemma NoneServed(
    attempts: seq<Attempt>, candidates: seq<Provider>, world: nat -> Behaviour, s: Settings, held: Option<string -> real>)
    requires |attempts| == |candidates| && AllSkipped(attempts, |attempts|, candidates, world, s, held)
    ensures Explained(NoProvider(attempts), candidates, world, s, held) && !Loses(candidates, world, s, held)
  {
    hide Ends;
    NotLost(NoProvider(attempts), 0, false, candidates, world, s, held);
  }

  /** What a call torn down at candidate n takes with it. */
  lemma LostExactly(
    n: nat, attempts: seq<Attempt>, candidates: seq<Provider>, world: nat -> Behaviour, s: Settings,
    held: Option<string -> real>, gone: seq<Note>)
    requires n < |candidates| && AllSkipped(attempts, n, candidates, world, s, held)
    requires var v := Ends(candidates[n], world(n), s, held); v.Escapes? && Given(gone, v.paying, world(n), s)
    ensures Explained(Escaped, candidates, world, s, held)
    ensures gone != [] <==> Loses(candidates, world, s, held)
  {
    hide Ends;
    var paying := Ends(candidates[n], world(n), s, held).paying;
    assert EscapesAt(n, paying, candidates, world, s, held);
    NotLost(Escaped, n, paying, candidates, world, s, held);
  }

  // ---------------------------------------------------------------- lost vouchers

  /**
   * What in the paid retry tears a call down: the exchange itself; a receipt that verification cannot
   * encode, or content that cannot be hashed under a valid receipt; a quote whose expiry is out of range,
   * or a running one against which NaN is charged; or a sound answer from a provider without a key.
   */
  predicate Traps(p: Provider, b: Behaviour, s: Settings) {
    match b.paid
    case Fault => false
    case Crash => true
    case Reply(status, body) =>
      var content, receipt := Content(body), Field(body, "sip_receipt");
      && status == 200 && !content.JNull?
      && (if s.verifyReceipts && !(Attests(receipt, p.pubkey, content, s.lib) && ReceiptSchema(receipt, s.lib)) then
            || Unencodable(receipt)
            || (content.JLone? && SignedBy(receipt, p.pubkey, s.lib) && ReceiptSchema(receipt, s.lib))
          else if s.getQuote then
            b.quote.Reply? && BreaksQuote(b.quote.body, receipt, p, b.now, s.lib)
          else p.pubkey.None?)
  }

  predicate BreaksQuote(quote: Json, receipt: Json, p: Provider, now: real, lib: Library) {
    && SignedBy(quote, p.pubkey, lib) && Field(quote, "expires_at").JStr?
    && var expires := lib.moment(Field(quote, "expires_at").s);
       || expires.OutOfRange?
       || (expires.At? && now < expires.time && Field(receipt, "price_units") == Field(quote, "price_units")
           && lib.decimal(Field(receipt, "price_amount")).NaN?)
  }

  /** A call is torn down with notes reserved exactly when the provider gets as far as staking them and its reply traps. */
  lemma EscapesPaying(p: Provider, b: Behaviour, s: Settings, held: Option<string -> real>)
    ensures Ends(p, b, s, held) == Escapes(true) <==>
            && b.health.Reply? && Healthy(b.health) && Quoted(b, s).Goes? && Stakes(b, s, held) && Traps(p, b, s)
  {
    hide ReceiptTrusted, QuoteHonored, Signed, QuoteSchema, ReceiptSchema, Attests, Honours, Content, MeansFor, SignedBy, Unencodable,
         Quoted;
    if b.paid.Reply? && !Content(b.paid.body).JNull? && Quoted(b, s).Goes? {
      var content, receipt := Content(b.paid.body), Field(b.paid.body, "sip_receipt");
      TrustAttests(receipt, p.pubkey, content, s.lib);
      TrustRaises(receipt, p.pubkey, content, s.lib);
      NoKeyNothingTrusted(receipt, p.pubkey, content, s.lib);
      if s.getQuote {
        HonouredHonours(b.quote.body, receipt, p.pubkey, b.now, s.lib);
        HonouredRaises(b.quote.body, receipt, p.pubkey, b.now, s.lib);
        NoKeyNothingHonoured(b.quote.body, receipt, p.pubkey, b.now, s.lib);
      }
    }
  }

  lemma NoKeyNothingTrusted(receipt: Json, pubkey: Option<string>, content: Json, lib: Library)
    ensures Attests(receipt, pubkey, content, lib) ==> pubkey.Some?
  {
  }

  lemma NoKeyNothingHonoured(quote: Json, receipt: Json, pubkey: Option<string>, now: real, lib: Library)
    ensures Honours(receipt, quote, pubkey, now, lib) ==> pubkey.Some?
  {
  }

  /** Nothing is lost to providers whose paid replies do not trap. */
  lemma NothingLost(candidates: seq<Provider>, world: nat -> Behaviour, s: Settings, held: Option<string -> real>)
    requires forall i :: 0 <= i < |candidates| ==> !Traps(candidates[i], world(i), s)
    ensures !Loses(candidates, world, s, held)
  {
    hide Ends, Traps, Charges;
    if Loses(candidates, world, s, held) {
      var n :| 0 <= n < |candidates| && EscapesAt(n, true, candidates, world, s, held) && Charges(world(n), s);
      EscapesPaying(candidates[n], world(n), s, held);
    }
  }

  // A provider that takes vouchers and serves nobody: it asks for one pic, then answers with a receipt
  // that names some key and signature and holds NaN.

  const CHALLENGE := JObj([Member("price_amount", JStr("1")), Member("price_units", JStr("pic")),
                           Member("accepted_schemes", JArr([JStr("pic")]))])
  const RECEIPT := JObj([Member("provider_pubkey", JStr("a")), Member("signature", JStr("b")), Member("x", JFloat("NaN"))])
  const ANSWER := JObj([Member("message", JObj([Member("content", JStr("x"))]))])
  const TRAP := Behaviour(
    Reply(200, JObj([Member("status", JStr("ok"))])),
    Fault,
    Reply(402, JObj([Member("sip_payment_required", CHALLENGE)])),
    Reply(200, JObj([Member("choices", JArr([ANSWER])), Member("sip_receipt", RECEIPT)])),
    0.0)

  lemma TrapReads()
    ensures Healthy(TRAP.health) && Asked(TRAP)
    ensures Dict(Challenge(TRAP.completion.body)).Some? && Accepts(TRAP.completion.body, "pic")
    ensures Field(Challenge(TRAP.completion.body), "price_amount") == JStr("1")
    ensures Field(Challenge(TRAP.completion.body), "price_units") == JStr("pic")
    ensures Content(TRAP.paid.body) == JStr("x") && Field(TRAP.paid.body, "sip_receipt") == RECEIPT
  {
    hide Field;
    FieldAt(TRAP.health.body.members, 0);
    FieldAt(TRAP.completion.body.members, 0);
    FieldAt(CHALLENGE.members, 0);
    FieldAt(CHALLENGE.members, 1);
    FieldAt(CHALLENGE.members, 2);
    FieldAt(TRAP.paid.body.members, 0);
    FieldAt(TRAP.paid.body.members, 1);
    FieldAt(ANSWER.members, 0);
    FieldAt(ANSWER.members[0].value.members, 0);
  }

  lemma TrapReceipt()
    ensures Unencodable(RECEIPT) && !Documents.Signable(RECEIPT.members, "signature")
  {
    hide Field, Documents.Unsigned;
    var ms := RECEIPT.members;
    FieldAt(ms, 0);
    FieldAt(ms, 1);
    Documents.UnsignedExact(ms, "signature");
    assert ms[2] in ms;
    var u := Documents.Unsigned(ms, "signature");
    var i :| 0 <= i < |u| && u[i] == ms[2];
    assert !Valid(u[i].value) by {
      assert "NaN"[0] == 'N';
    }
  }

  /** With the default settings, whoever holds a pic and meets this provider loses notes. */
  lemma NaNReceiptLoses(p: Provider, s: Settings, held: Option<string -> real>)
    requires s.verifyReceipts && !s.getQuote && s.lib.decimal(JStr("1")) == Finite(1.0)
    requires held.Some? && held.value("pic") >= 1.0
    ensures Loses([p], _ => TRAP, s, held)
  {
    TrapReads();
    TrapReceipt();
    hide Traps, Unencodable, Content, Field, Accepts, Healthy;
    TrapTraps(p, s);
    EscapesPaying(p, TRAP, s, held);
    assert EscapesAt(0, true, [p], _ => TRAP, s, held);
  }

  lemma TrapTraps(p: Provider, s: Settings)
    requires s.verifyReceipts
    ensures Traps(p, TRAP, s)
  {
    TrapReads();
    TrapReceipt();
    hide Content, Field, Unencodable;
  }

  lemma OnlyCandidate(p: Provider, model: string, mode: string, sort: Sort)
    requires model in p.models && !Unreadable(p, Query(None, Some(mode), Some(model), None))
    ensures Candidates([p], model, mode, None, None, sort) == Some([p])
  {
    ResolveRanks([p], model, Some(mode), None, false, sort);
    ScoreRaises(p, Query(None, Some(mode), Some(model), None));
    hide Resolve, Score, Unreadable, BestFirst;
    assert Resolve([p], model, Some(mode), None, false, sort).Some?;
    var ranked := Resolve([p], model, Some(mode), None, false, sort).value;
    assert ForModel([p], model) == [p];
    assert multiset(ranked) == multiset([p]);
    assert |ranked| == |multiset(ranked)| == 1;
    assert ranked[0] in multiset(ranked);
    assert ranked == [p];
  }

  /** End to end: the only voucher is gone, and the call has no result. */
  method LoseVoucher(p: Provider, model: string, note: Note, s: Settings) returns (r: ChatResult, wallet: Wallet)
    requires model in p.models && !Unreadable(p, Query(None, Some("direct"), Some(model), None))
    requires s.verifyReceipts && !s.getQuote && s.lib.decimal(JStr("1")) == Finite(1.0)
    requires note.voucher.unit == Some("pic") && note.voucher.denomination.value >= 1.0
    ensures r == Escaped && wallet.vouchers == []
  {
    hide Loses, Explained, Candidates, Followed, Trustworthy, Given, Unreadable;
    wallet := new Wallet([note]);
    OnlyCandidate(p, model, "direct", s.sort);
    assert FaceOf([note], Some("pic")) == note.voucher.denomination.value by {
      assert [note][..0] == [];
    }
    NaNReceiptLoses(p, s, Held(wallet));
    ghost var sent, lost;
    r, sent, lost := Chat([p], model, "direct", None, None, _ => TRAP, s, wallet);
    assert |multiset(wallet.vouchers)| + |multiset(lost)| == 1 by {
      assert |multiset(wallet.vouchers) + multiset(lost)| == |multiset([note])|;
    }
  }
}
