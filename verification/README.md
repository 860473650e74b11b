# Sovereign Inference, verified model

Sovereign Inference routes chat completions to independent providers and pays them with private
credits. This project models the parts whose correctness spans many calls, and proves what they
promise. `dafny verify dfyconfig.toml` checks everything.

| file | models |
|---|---|
| `Payments.dfy` | the shared spent set, and redemption of PIC batches and x402 assertions, as code under interference and as a step machine |
| `Interleaving.dfy` | any number of redemptions, by any number of workers, interleaved step by step over one spent set |
| `Gateway.dfy`, `GatewayRuns.dfy`, `Ledger.dfy`, `RateLimiter.dfy`, `Amounts.dfy`, `Pricing.dfy` | the paid completion endpoint: verify, serve, commit, record; whole runs of it among other workers; its accounts, limiter, price texts and quote bound |
| `NumberTheory.dfy`, `BlindCredits.dfy`, `SequentialRuns.dfy`, `Codecs.dfy` | RSA blind credits from Euclid and Fermat up to redemption, sequential runs that mix all kinds of redemption, and the text and byte encodings |
| `Json.dfy`, `Canonical.dfy`, `Documents.dfy` | canonical JSON with a parser that undoes it, signed documents, request hashes |
| `Discovery.dfy`, `Sources.dfy`, `Config.dfy`, `AppServer.dfy`, `Overlaps.dfy` | deduplication, the trust-on-first-use registry, the saved configuration, the live app server, and its requests when they overlap |
| `Wallet.dfy`, `Router.dfy`, `Client.dfy` | the payer's wallet, provider scoring and ranking, and the client's failover with one paid retry |
| `Prelude.dfy` | shared value types |

How the outside world enters the model:

- Signature verification, SHA-256, URL safety, the runtime and every HTTP reply are parameters:
  arbitrary functions or values. A lemma that needs more (no collisions, a signature that fits one
  message) says so in its precondition.
- Exceptions are outcomes. `canonical_json` raises on NaN, infinities and strings that UTF-8 cannot
  encode, all of which JSON text may carry, so every check of a document can pass, fail or raise
  (`Check`). A string with lone surrogates is the value `JLone`.
- Money is exact: `real` for decimals, millionths for gateway prices. Floating point in the price
  pipeline is any rounding that is monotone. Times are seconds as `real`.
- Concurrency appears twice. The redemption methods call `OthersRun` between their statements, whose
  contract lets other workers insert and delete rows at will, except rows this worker holds; the
  methods are proved knowing no more than that. `Interleaving` runs the same redemptions as atomic
  steps in every order and proves (`ForeignStepKeeps`) that they keep that promise to each other. The
  two are one: on whatever rows it finds at its turns, the code does what the steps do (`Reached`).
- The gateway is likewise a method and a machine over its events; both answer by `Decide` on the
  results of the request's two redemptions.
- What a check asks for is said twice: by the functions the code calls, and in the words of the fields they
  read (`Good`, `Honest`, `Funds`, `Genuine`, `Precedes`, `Freshest`, `Covers`, `Admissible`). The main results
  use the latter.
- Objects the code updates in place (spent set, ledger, limiter, wallet, server state) are classes.
  Wallet notes are objects, because selection removes by identity.

Six promises hold only under a condition, and each is stated with its condition and an input:

- A client's notes are conserved unless the paid retry raises: `Client.EscapesPaying`, `Client.NaNReceiptLoses`.
- A payment is taken without an answer exactly when the runtime answers and no receipt can be made:
  `Gateways.Gateway.ChatCompletions`, `Gateways.PayForNothing`.
- Scores lie in [0, 1] unless a number they read is indefinite, and providers are tried best first when no
  score is: `Scoring.ScoreInRange`, `Scoring.RankExact`, `Scoring.NaNRateMisranks`.
- One manifest that cannot be encoded loses every provider of its directory: `Discovery.Discover`, `Discovery.NaNPriceChokes`.
- The app server boots unless a saved provider is such a manifest: `AppServer.Boot`.
- However two requests overlap, file, backend and live state agree in the end exactly when either leaves what
  the other would leave too and they do not both follow one new directory: `Overlaps.TwoRequests`,
  `Overlaps.OvertakenDisagrees`, `Overlaps.FollowedTwice`; and a run that assigns nothing twice agrees exactly
  when file and backend are up to date: `Overlaps.UpToDateExactly`.

## Model

| member | source | states |
|---|---|---|
| `SpentSets.SpentSet.IsSpent` | packages/pic-vouchers/src/sip_pic/spentset.py:79-83 | A key is reported exactly when its row is present. |
| `SpentSets.SpentSet.Spend` | packages/pic-vouchers/src/sip_pic/spentset.py:85-98 | The first writer of a key wins and inserts its row; a later writer is told so and changes nothing. |
| `SpentSets.SpentSet.Unspend` | packages/pic-vouchers/src/sip_pic/spentset.py:100-103 | Exactly the named row disappears. |
| `Redemption.HasRepeatedIds` | packages/pic-vouchers/src/sip_pic/payment.py:88-94 | The duplicate check answers yes exactly when some id is missing or occurs twice in the batch. |
| `Redemption.CheckVouchers` | packages/pic-vouchers/src/sip_pic/payment.py:96-107 | Validation accepts only if every voucher is signed, of a listed issuer, in the unit asked for, not expired and of a readable value, and then returns the face value of the batch; a refusal is a double spend or says what is wrong with the first voucher that is not so. Alone, it agrees with the step machine. |
| `Redemption.SpendAll` | packages/pic-vouchers/src/sip_pic/payment.py:116-127 | Under interference: success has inserted every id of the batch, in order, and all are still present; a collision has deleted exactly the rows it had inserted, and no other. |
| `Redemption.Undo` | packages/pic-vouchers/src/sip_pic/payment.py:123-124 | The rollback deletes exactly the ids inserted so far, each of which was still held. |
| `Redemption.RedeemPic` | packages/pic-vouchers/src/sip_pic/payment.py:74-127 | Under interference: success only on distinct such vouchers worth the price; refusal only for a double spend or for a stated defect of the batch; all or nothing in writes; verify-only, and a document that makes the code raise, write nothing. Whatever rows it finds at its turns, result and writes are those of the step machine on these rows; alone, those of `Redeem`. |
| `Redemption.RedeemPayment` | packages/pic-vouchers/src/sip_pic/payment.py:130-178 | The same for both schemes and for unsupported ones; an x402 assertion is accepted only if signed, at most 300 seconds old, with a nonce, in the unit, for this provider and request and for no less than the price, and consumes its nonce when committing. |
| `Redemption.RedeemAllOrNothing` | packages/pic-vouchers/src/sip_pic/payment.py:142-150 | Alone, redemption succeeds if and only if the payment is so and none of its keys is spent; it then reports the full value and, if committing, adds exactly the keys; otherwise the table is unchanged and the reason says what is wrong. |
| `Payments.VoucherChecked` | packages/pic-vouchers/src/sip_pic/payment.py:55-71 | Validation passes exactly the vouchers described in the words of their fields, and each of its reasons is said of exactly the vouchers it describes. |
| `Interleaving.ApplyInv` | packages/pic-vouchers/src/sip_pic/payment.py:116-125 | Ownership: the table is the initial rows plus the rows held by the runs, and each added row is held by exactly one run; every step of every run keeps this. |
| `Interleaving.NoDoubleSpend` | packages/pic-vouchers/src/sip_pic/payment.py:116-127 | In every interleaving of any number of redemptions, two committed ones have disjoint keys, none of which was spent at the start, and all of which are spent now. |
| `Interleaving.SingleUse` | packages/pic-vouchers/src/sip_pic/payment.py:142-150 | A voucher id lies in at most one successful batch, and an x402 nonce is accepted at most once. |
| `Interleaving.CommittedIsGood` | packages/pic-vouchers/src/sip_pic/payment.py:96-127 | In every interleaving, whatever is committed is a batch of distinct, signed, unexpired vouchers of listed issuers in the unit asked for and worth the price, or a fresh signed assertion made for this provider and request that covers it. |
| `Interleaving.RefusedForReason` | packages/pic-vouchers/src/sip_pic/payment.py:55-127 | In every interleaving a refusal says what is wrong with the payment, or that a key of it was spent. |
| `Interleaving.DeletesOwnRowsOnly` | packages/pic-vouchers/src/sip_pic/payment.py:123-124 | A row that disappears is deleted by the very run that inserted it, while it rolls back, and no other run holds it. |
| `Interleaving.ForeignStepKeeps` | packages/pic-vouchers/src/sip_pic/payment.py:116-127 | A step of anybody else leaves a run and every row it holds in place: the promise the code relies on between its statements. |
| `Interleaving.CommittedForever` | packages/pic-vouchers/src/sip_pic/spentset.py:85-98 | A committed redemption stays committed and its keys stay spent under every continuation. |
| `Interleaving.AloneRedeems` | packages/pic-vouchers/src/sip_pic/payment.py:130-178 | A call that begins in any reachable state and is then left alone ends with the outcome and the table of sequential redemption. |
| `Interleaving.TableIsLog` | packages/pic-vouchers/src/sip_pic/spentset.py:85-103 | In every interleaving the table is at all times the initial rows with the logged insertions and deletions of all runs carried out. |
| `Interleaving.QuiescentTable` | packages/pic-vouchers/src/sip_pic/payment.py:96-127 | Whenever no run is in its spend loop the table is the initial rows plus the disjoint union of the keys of successful commits (also counted): refused and verify-only calls leave no trace. |
| `Gateways.Gateway.Screen` | packages/provider-gateway/src/sip_gateway/app.py:261-290 | Returns no status exactly for requests that are authorised, well-formed, for an allowed model and within both caps; 401, 400, 404 and 413 each for its own defect. |
| `Gateways.Gateway.TakePayment` | packages/provider-gateway/src/sip_gateway/app.py:299-346 | Verify, serve, commit, record under interference: the payment is taken, with one ledger entry at the request's price, exactly when both redemptions succeed and the runtime answers; then it was worth the price, in the unit and of the issuers of the gateway (or asserted for its key and this request), at both times. What is not so is refused with the price and unit, and nothing is written. Both redemptions are the step machine's on the rows found; on a private table it is said exactly when each outcome occurs. |
| `Gateways.Gateway.ChatCompletions` | packages/provider-gateway/src/sip_gateway/app.py:259-391 | The status of every refusal; 429 exactly when the window is full; otherwise the status `Decide` gives for the two redemptions. A payment is taken only if it is worth the price in the gateway's own unit, and one that is not is answered with price and unit, nothing written. A request whose payment is taken is answered 200 at that price if and only if a receipt can be made for it, and else with an exception; in every other case nothing is consumed and the ledger is unchanged. |
| `Gateways.Gateway.FundsExactly` | packages/provider-gateway/src/sip_gateway/app.py:307-317 | What the gateway hands to redemption asks for the price of the request, its unit, its issuers, its key and the request id, and for nothing else. |
| `Gateways.ReceiptableExactly` | packages/provider-gateway/src/sip_gateway/app.py:352-371 | A receipt can be made exactly when every message and the answer can be encoded. |
| `Gateways.NaNMessageUnanswerable` | packages/provider-gateway/src/sip_gateway/app.py:417-423 | A message with a further field holding NaN is admitted, and no receipt can be made for it. |
| `Gateways.PayForNothing` | packages/provider-gateway/src/sip_gateway/app.py:299-371 | End to end on a private table: a good voucher, such a message and a runtime that answers end in an exception, one ledger entry, and the voucher spent. |
| `Gateways.LoneContentUnanswerable` | packages/provider-gateway/src/sip_gateway/app.py:352-371 | Nor for content, asked or answered, that UTF-8 cannot encode. |
| `Gateways.RefsAreKeys` | packages/provider-gateway/src/sip_gateway/app.py:396-408 | For a redeemable batch the refs of a ledger entry are the consumed ids, in order. |
| `Gateways.Gateway.QuoteHolds` | packages/provider-gateway/src/sip_gateway/app.py:237-242 | The price of every admitted request is at most the quoted maximum for any output bound that covers it, both read as decimals. |
| `Gateways.Gateway.PriceFollows` | packages/provider-gateway/src/sip_gateway/app.py:305-306 | The price is the words of the messages at the input rate plus the tokens asked for at the output rate, up to the roundings. |
| `GatewayRuns.NextInv` | packages/provider-gateway/src/sip_gateway/app.py:299-346 | Every step of a gateway among other workers keeps: distinct commit runs per request, one ledger entry per payment taken, and answers decided by the request's own redemptions. |
| `GatewayRuns.AnsweredAlone` | packages/provider-gateway/src/sip_gateway/app.py:299-350 | From any point of any run, a request that arrives and is left alone comes to an answer: the one the method gives on the rows it finds, with the same effect on rows and ledger. |
| `GatewayRuns.BillsRequests` | packages/provider-gateway/src/sip_gateway/app.py:307-342 | The calls of the machine are the calls of the method. |
| `GatewayRuns.LedgerStep` | packages/provider-gateway/src/sip_gateway/app.py:329-350 | A step adds at most one ledger entry, exactly when one payment is taken; that request is answered at the entry's price if a receipt can be made, and with 500 otherwise. |
| `GatewayRuns.LedgerBacked` | packages/provider-gateway/src/sip_gateway/app.py:348-350 | In every run, entries and payments taken correspond one to one, each entry reads back as the price charged, the request is answered 200 exactly when a receipt can be made, and the ledger total of a unit never exceeds the face value consumed for it. |
| `GatewayRuns.StatusDecided` | packages/provider-gateway/src/sip_gateway/app.py:299-350 | In every run the status of an answered request is `Decide` of the results of its own two redemptions, both finished, at its price and in its unit. |
| `GatewayRuns.PricesAgree` | packages/provider-gateway/src/sip_gateway/app.py:302-350 | Challenge, receipt and redemption of one request carry one and the same price. |
| `GatewayRuns.LedgerCitesKeys` | packages/provider-gateway/src/sip_gateway/app.py:345-346 | The entry of a PIC payment cites exactly the ids it consumed, all of which are spent. |
| `GatewayRuns.TakenApart` | packages/provider-gateway/src/sip_gateway/app.py:342-346 | Two payments taken consumed disjoint credits. |
| `GatewayRuns.TakenIsGood` | packages/provider-gateway/src/sip_gateway/app.py:331-344 | In every run a payment taken was worth the price of its request, in its unit, and counts in full for that unit and for no other. |
| `GatewayRuns.RefusedConsumesNothing` | packages/provider-gateway/src/sip_gateway/app.py:318-344 | A request answered 402, 502, or 500 because redemption raised, owns no row of the table; a 502 never began to commit. |
| `Ledgers.Ledger.Record` | packages/pic-vouchers/src/sip_pic/ledger.py:51-61 | Exactly one entry is appended. |
| `Ledgers.Ledger.Balance` | packages/pic-vouchers/src/sip_pic/ledger.py:63-71 | The sum over exactly the entries of the provider (and unit, when given), for any reading of decimals; there is none exactly when an amount that counts is no finite number. |
| `Ledgers.Ledger.Total` | packages/pic-vouchers/src/sip_pic/ledger.py:73-79 | The same over the entries of the unit, or all of them. |
| `Ledgers.SumSplits` | packages/pic-vouchers/src/sip_pic/ledger.py:63-79 | Sums are additive, and an entry counts in its own unit and in all units together, and in no other. |
| `RateLimiting.RateLimiter.Allow` | packages/provider-gateway/src/sip_gateway/app.py:96-104 | On a clock that never runs back: refused exactly when the last minute already holds `limit` acceptances; the queue is the accepted history of that minute. |
| `RateLimiting.EveryRunObeysLimit` | packages/provider-gateway/src/sip_gateway/app.py:88-104 | For every non-decreasing call sequence, no half-open minute, wherever it ends, holds more than `limit` acceptances. |
| `RateLimiting.WindowBound` | packages/provider-gateway/src/sip_gateway/app.py:99-103 | Any history whose acceptances `limit` apart are a minute apart obeys the limit in every window. |
| `Amounts.FormatRoundTrip` | packages/provider-gateway/src/sip_gateway/app.py:77-85 | A printed price matches `[0-9]+(\.[0-9]+)?`, has no redundant zero, and reads back exactly. |
| `Amounts.FormatInjective` | packages/provider-gateway/src/sip_gateway/app.py:77-85 | Different six-place amounts have different texts. |
| `Amounts.CanonicalIsPrinted` | packages/provider-gateway/src/sip_gateway/app.py:80-81 | Every text of that canonical form is the print of the amount it denotes, so printing and reading are inverse. |
| `Pricing.PriceMonotone` | packages/provider-gateway/src/sip_gateway/app.py:193-195 | With non-negative rates and monotone rounding the price grows with both token counts. |
| `Pricing.PriceAccurate` | packages/provider-gateway/src/sip_gateway/app.py:193-195 | In millionths the price is tokens times rate per million, input with input and output with output, within three roundings of relative error u and half a millionth. |
| `Pricing.BilledAtMostChars` | packages/provider-gateway/src/sip_gateway/app.py:305 | The words billed never exceed the characters admitted. |
| `Pricing.WordsBegin` | packages/provider-gateway/src/sip_gateway/app.py:305 | One word is billed for every place where a non-space follows a space or nothing. |
| `Pricing.QuoteBoundsCharge` | packages/provider-gateway/src/sip_gateway/app.py:238-242 | Within the input cap and the quoted output, the charged text denotes at most the quoted one. |
| `NumberTheory.ModInverse` | packages/pic-vouchers/src/sip_pic/blind.py:185 | The modular inverse of every unit exists in [0, n), by Euclid's algorithm. |
| `NumberTheory.Fermat` | packages/pic-vouchers/src/sip_pic/blind.py:104-108 | Fermat's little theorem, from the rearrangement of the residues. |
| `NumberTheory.RsaInverse` | packages/pic-vouchers/src/sip_pic/blind.py:114-118 | For distinct primes and exponents inverse modulo lcm(p-1, q-1): x^(ed) = x modulo pq, for every x. |
| `BlindCredits.KeyRoundTrip` | packages/pic-vouchers/src/sip_pic/blind.py:79-92 | A key text reads back as the key exactly when n >= 3 and e >= 2. |
| `BlindCredits.ParseKeyExact` | packages/pic-vouchers/src/sip_pic/blind.py:82-92 | Exactly the texts of a modulus in base64url and an exponent in digits behind the prefix are read, when n >= 3 and e >= 2. |
| `Base64Url.UnpaddedRoundTrip` | packages/pic-vouchers/src/sip_pic/blind.py:51-56 | Every byte string survives unpadded base64url (section 5 of RFC 4648), over alphabet symbols only. |
| `Base64Url.IntRoundTrip` | packages/pic-vouchers/src/sip_pic/blind.py:59-65 | Every natural number survives its text form. |
| `BlindCredits.Mgf1` | packages/pic-vouchers/src/sip_pic/blind.py:121-127 | The mask has the requested length and is a prefix of the block stream of section B.2.1 of RFC 8017. |
| `BlindCredits.PreimageInjective` | packages/pic-vouchers/src/sip_pic/blind.py:130-151 | For serials of one length the hashed preimage determines serial, amount and unit. |
| `Utf8.EncodeInjective` | packages/pic-vouchers/src/sip_pic/blind.py:138-139 | UTF-8 keeps distinct strings distinct. |
| `Utf8.RoundTrip` | packages/pic-vouchers/src/sip_pic/blind.py:138-139 | What is encoded reads back by the rules of section 3 of RFC 3629. |
| `BlindCredits.FdhUnreduced` | packages/pic-vouchers/src/sip_pic/blind.py:143-153 | The hash has as many bytes as fit below n, so it is below n and the final reduction changes nothing. |
| `BlindCredits.OrdinaryCredits` | packages/pic-vouchers/src/sip_pic/blind.py:141-153 | The bounds of the other results leave out no credit in practice: texts below 2^30 characters and moduli from 3 up to 65536 bits are within them. |
| `BlindCredits.RandomUnit` | packages/pic-vouchers/src/sip_pic/blind.py:156-161 | Returns the first draw that is a unit above 1, and only such a draw. |
| `BlindCredits.BlindSignUnblind` | packages/pic-vouchers/src/sip_pic/blind.py:177-186 | For every message below n and every unit factor the issuer refuses exactly the zero message, and otherwise unblinding yields m^d. |
| `BlindCredits.SignedVerifies` | packages/pic-vouchers/src/sip_pic/blind.py:114-118 | The issuer signs exactly the numbers between 0 and n, and what it signs verifies. |
| `BlindCredits.SignatureUnique` | packages/pic-vouchers/src/sip_pic/blind.py:189-191 | Under a valid key a message has exactly one signature modulo n. |
| `BlindCredits.PerfectBlinding` | packages/pic-vouchers/src/sip_pic/blind.py:156-180 | For messages and blinded values that are units there is exactly one admissible factor between them, and none precisely when they are equal. |
| `BlindCredits.IssuedCreditVerifies` | packages/pic-vouchers/src/sip_pic/blind.py:229-264 | A credit blinded, signed and finalised under any valid key verifies, and carries its own denomination and serial. |
| `BlindCredits.SignatureCoversValue` | packages/pic-vouchers/src/sip_pic/blind.py:143-150 | Another serial or denomination has another preimage, and passes under the same signature only if the two masks collide. |
| `BlindCredits.RedeemBlindCredit` | packages/pic-vouchers/src/sip_pic/blind.py:267-291 | On a table nobody else writes: the reason for each refusal in the order of the code, and success adds exactly the spend key; it is the function of the next two rows. |
| `BlindCredits.RedemptionExact` | packages/pic-vouchers/src/sip_pic/blind.py:256-291 | Under a valid key with private exponent d a credit is accepted if and only if its issuer is known, serial and signature decode, the signature is the hash of serial, amount, unit and key to the d modulo n, price and unit are its own, and its spend key is free; every other credit is refused for the first of these that fails. |
| `BlindCredits.SpendKeyExact` | packages/pic-vouchers/src/sip_pic/blind.py:287 | Two credits share a spend key exactly when they share issuer and serial. |
| `SequentialRuns.ConsumedOnce` | packages/pic-vouchers/src/sip_pic/blind.py:287-290 | In any sequential run of blind, PIC and x402 redemptions, keys consumed once are never consumed again. |
| `SequentialRuns.ConsumesExactly` | packages/pic-vouchers/src/sip_pic/blind.py:281-291 | At any point of a sequential run an attempt consumes its keys if and only if it is a committing call with an acceptable payment, or such a genuine credit, and its keys are unspent. |
| `SequentialRuns.IssuedCreditLifecycle` | packages/pic-vouchers/src/sip_pic/blind.py:229-291 | From blinding to redemption: the issued credit is accepted exactly when its spend key is unused, and never a second time, whatever happens in between. |
| `Json.StringRoundTrip` | packages/sip-protocol/src/sip_protocol/canonical.py:18-29 | Every escaped string is read back, and reading stops at its closing quote. |
| `Json.ValueRoundTrip` | packages/sip-protocol/src/sip_protocol/canonical.py:18-29 | A parser undoes the printer on every valid JSON value, inside any context. |
| `Canonical.SortCorrect` | packages/sip-protocol/src/sip_protocol/canonical.py:21-25 | Sorting permutes the members so that each key comes before the next in the order of code points: a proper prefix of it, or smaller where they first differ. |
| `Canonical.LessExact` | packages/sip-protocol/src/sip_protocol/canonical.py:25 | The comparison character by character is that order. |
| `Canonical.CanonicalReads` | packages/sip-protocol/src/sip_protocol/canonical.py:18-29 | The canonical text reads back as the same value, every object at every depth listing its keys in the order of code points. |
| `Canonical.SameNormalizes` | packages/sip-protocol/src/sip_protocol/canonical.py:21-26 | The order of keys, at any depth, does not matter. |
| `Canonical.CanonicalInjective` | packages/sip-protocol/src/sip_protocol/canonical.py:18-29 | Two values have the same canonical bytes if and only if they are the same value. |
| `Documents.SigningBytesExact` | packages/sip-protocol/src/sip_protocol/documents.py:20-23 | Two documents have the same signing bytes if and only if they agree outside the signature field. |
| `Documents.TamperingShows` | packages/sip-protocol/src/sip_protocol/documents.py:20-23 | Adding, removing or altering any other field changes the signing bytes. |
| `Documents.VerificationRaises` | packages/sip-protocol/src/sip_protocol/documents.py:39-50 | Verification raises on exactly the dicts that name a key and a signature as strings and cannot be encoded without the latter. |
| `Documents.ResignIgnoresOld` | packages/sip-protocol/src/sip_protocol/documents.py:26-36 | Signing a signed document gives the same document. |
| `Documents.SignThenVerify` | packages/sip-protocol/src/sip_protocol/documents.py:26-50 | A document that names the signer's key verifies once signed if and only if it can be encoded. |
| `Documents.VerifiedIsUntampered` | packages/sip-protocol/src/sip_protocol/documents.py:39-50 | If no signature fits two messages, whatever verifies with the signature of another document says the same. |
| `Documents.RequestHashExact` | packages/sip-protocol/src/sip_protocol/hashing.py:26-33 | Without hash collisions, equal request hashes mean equal model and messages, and conversely. |
| `Documents.RequestText` | packages/sip-protocol/src/sip_protocol/hashing.py:26-33 | A request hash covers the object of messages and model, in this order. |
| `Documents.ResponseHashExact` | packages/sip-protocol/src/sip_protocol/hashing.py:19-23 | Without hash collisions, equal response hashes mean equal bodies, and conversely. |
| `Discovery.FilterAndDedupe` | packages/discovery/src/sip_discovery/directory.py:106-115 | The loop gives exactly one entry per key that serves the model, the first of those that no other was published after in the order of code points. |
| `Discovery.DedupeFreshest` | packages/discovery/src/sip_discovery/directory.py:106-115 | The same of the fold it computes, in both directions: every entry kept is such an entry, every such entry is kept, and no key that serves the model is lost. |
| `Discovery.DedupeOrder` | packages/discovery/src/sip_discovery/directory.py:106-115 | The entries kept stand in the order in which their keys first occur, as in Python's dictionary. |
| `Discovery.DedupeInStages` | packages/discovery/src/sip_discovery/directory.py:106-115 | Deduplicating two batches and then their results equals deduplicating everything at once, order and ties included. |
| `Discovery.VerifyManifestExact` | packages/sip-protocol/src/sip_protocol/manifests.py:97-101 | A manifest verifies exactly when it follows the schema and its own key signed everything but the signature; verification raises exactly when it follows the schema and cannot be encoded. |
| `Discovery.NaNPriceChokes` | packages/sip-protocol/src/sip_protocol/manifests.py:97-101 | A price of NaN, which the schema lets pass, is such a manifest. |
| `Discovery.Discover` | packages/discovery/src/sip_discovery/directory.py:252-274 | Whatever a relay or file holds: once manifests are received, discovery fails, and every provider is lost, if and only if one of them satisfies the schema and cannot be encoded without its signature. Otherwise it gives only verified manifests, each at its signed address, one per key, and every such key that serves the model. |
| `Discovery.AnnouncedIsFound` | packages/discovery/src/sip_discovery/directory.py:124-149 | What was announced to a directory file, or is listed by a relay, is found by everybody who asks for a model it serves, unless discovery raises. |
| `Sources.BuildRegistry` | apps/openai-proxy/src/sip_openai_proxy/sources.py:124-167 | It raises exactly when some offered entry raises in verification. Otherwise the registry is what the pinning fold gives, with its warnings, and every entry is verified, at its signed safe address, with distinct keys and endpoints. |
| `Sources.DiscoveredNeverTrips` | apps/openai-proxy/src/sip_openai_proxy/sources.py:151-163 | What discovery returned cannot raise again in the registry. |
| `Sources.TrustedEntryExact` | apps/openai-proxy/src/sip_openai_proxy/sources.py:82-93 | An entry is trusted exactly when its manifest verifies and its signed address is there, is the one it was offered at, and is safe; each refusal names the first of these that fails. |
| `Sources.MergePinned` | apps/openai-proxy/src/sip_openai_proxy/sources.py:100-114 | An accepted merge keeps keys and endpoints pairwise distinct and every entry trusted. |
| `Sources.BuildPinned` | apps/openai-proxy/src/sip_openai_proxy/sources.py:140-163 | The same through any configuration and any directory answers. |
| `Sources.EndpointPassesOnlyByMove` | apps/openai-proxy/src/sip_openai_proxy/sources.py:100-114 | If an endpoint passes from one key to another, an accepted entry in between moved the first key elsewhere. |
| `Sources.DirectoriesKeepKeys` | apps/openai-proxy/src/sip_openai_proxy/sources.py:151-163 | No directory answer can remove a key that is already pinned. |
| `Sources.RebuildKeeps` | apps/openai-proxy/src/sip_openai_proxy/sources.py:148-149 | Rebuilding a pinned list drops nothing, keeps its order and warns of nothing. |
| `Configs.ConfigRoundTrip` | apps/openai-proxy/src/sip_openai_proxy/config.py:55-79 | A saved configuration loads as itself. |
| `Configs.EmptyIsDefault` | apps/openai-proxy/src/sip_openai_proxy/config.py:66-79 | What is missing from a saved file reads as its default. |
| `AppServer.Boot` | apps/openai-proxy/src/sip_openai_proxy/server.py:100-118 | Boot fails if and only if the file is malformed or a saved provider raises in verification. Otherwise disk, configuration and backend agree, and the local model is the one that started, if one was saved. |
| `AppServer.ServerState.Rebuild` | apps/openai-proxy/src/sip_openai_proxy/server.py:136-141 | The backend becomes what a fresh build from configuration, local model and directory answers gives. |
| `AppServer.ServerState.AddProvider` | apps/openai-proxy/src/sip_openai_proxy/server.py:255-265 | Answered 200 only for a verified manifest at its own signed and safe address that no other key holds, and 500 exactly when the check raises (for a list in which every entry names its key: when the manifest satisfies the schema and cannot be encoded), with nothing changed unless 200; then the entry comes last, exactly the other entries of its key have left, and the list is saved and live. |
| `AppServer.AdmitExact` | apps/openai-proxy/src/sip_openai_proxy/server.py:257-262 | For a list in which every entry names its key, exactly such manifests are admitted. |
| `AppServer.OnlyProvidersTrip` | apps/openai-proxy/src/sip_openai_proxy/server.py:136-141 | A rebuild raises if and only if a configured provider does in verification, whatever the directories hold. |
| `AppServer.ServerState.RemoveProvider` | apps/openai-proxy/src/sip_openai_proxy/server.py:267-273 | Exactly the entries of the key leave, and disk and backend follow. |
| `AppServer.ServerState.AddDirectory` | apps/openai-proxy/src/sip_openai_proxy/server.py:275-284 | Refused exactly for an unsafe URL; a known spec changes nothing; a new one is appended, saved and live. |
| `AppServer.ServerState.RemoveDirectory` | apps/openai-proxy/src/sip_openai_proxy/server.py:286-292 | Every occurrence of the spec leaves the list and nothing else does; an unknown one changes nothing. |
| `AppServer.ServerState.StartLocalUse` | apps/openai-proxy/src/sip_openai_proxy/server.py:294-304 | Refused exactly when the runtime does not start, with nothing changed; otherwise runtime and model are saved as asked for and the started model is routed. |
| `AppServer.ServerState.StopLocalUse` | apps/openai-proxy/src/sip_openai_proxy/server.py:306-312 | The local model leaves configuration and backend together. |
| `AppServer.ServerState.HandleAll` | apps/openai-proxy/src/sip_openai_proxy/server.py:248-312 | After any run of requests handled one at a time, disk, configuration and backend agree, and a pinned provider list is still pinned. |
| `AppServer.ConfiguredTwice` | apps/openai-proxy/src/sip_openai_proxy/server.py:248-312 | Repeating a request changes nothing. |
| `Overlaps.UpToDateExactly` | apps/openai-proxy/src/sip_openai_proxy/server.py:136-144 | At any point of any run of overlapping requests: if file and backend were last replaced with what was read after the last assignment, they show the live configuration and local model; and unless something was assigned twice, only then. |
| `Overlaps.OrderlyAgrees` | apps/openai-proxy/src/sip_openai_proxy/server.py:136-144 | A run in which nothing is assigned while another request holds what it has read of it is up to date once its requests have finished. |
| `Overlaps.TwoRequests` | apps/openai-proxy/src/sip_openai_proxy/server.py:248-312 | With every read and write of a handler a step of its own: two pending requests end in agreement of file, backend, configuration and local model in every order of their steps if and only if whichever of them does anything leaves what the other would leave too, and they do not both follow one new directory. This can be read off before either begins. |
| `Overlaps.FollowedTwice` | apps/openai-proxy/src/sip_openai_proxy/server.py:275-284 | A finished run of two requests for one new directory: both test for it before either adds it, and the configuration lists it twice, the file once. |
| `Overlaps.SharedGoalAgrees` | apps/openai-proxy/src/sip_openai_proxy/server.py:248-312 | Any number of requests that lead to one and the same state, or do nothing, agree in every order, if at most one of them follows a new directory. |
| `Overlaps.OvertakenDisagrees` | apps/openai-proxy/src/sip_openai_proxy/server.py:275-284 | A finished run of two requests that is not up to date: the configuration follows two directories and the file one. |
| `Overlaps.StartAndStop` | apps/openai-proxy/src/sip_openai_proxy/server.py:294-312 | A finished run of a start and a stop after which a model is saved as in use and none is running. |
| `Overlaps.TornDown` | apps/openai-proxy/src/sip_openai_proxy/server.py:136-141 | A stop between the two reads of the local model tears another request down: its change is made and saved, and the backend is left as it was. |
| `AppServer.Restart` | apps/openai-proxy/src/sip_openai_proxy/server.py:100-118 | Restarting from disk at any point gives the same configuration and, with the same local model and answers, the same backend. |
| `AppServer.ConfiguredPinned` | apps/openai-proxy/src/sip_openai_proxy/server.py:255-273 | A provider list made only by adding and removing stays pinned and trusted. |
| `AppServer.BackendKeepsProviders` | apps/openai-proxy/src/sip_openai_proxy/server.py:136-141 | Rebuilding such a list drops nothing, and whatever the directories answer every configured key is still routed. |
| `Wallets.Wallet.Balance` | packages/pic-vouchers/src/sip_pic/wallet.py:31-37 | The face value held in the unit, or in all units. |
| `Wallets.FaceSnoc` | packages/pic-vouchers/src/sip_pic/wallet.py:33-37 | A further note adds its value to the balance of its own unit and of all units, and to no other. |
| `Wallets.Wallet.Select` | packages/pic-vouchers/src/sip_pic/wallet.py:39-61 | Insufficient funds exactly when the balance is short, so always without a note of the unit, and then nothing changes; otherwise the shortest prefix of the unit's notes that reaches the amount leaves, every note picked is of the unit, notes and balances of other units stay, the rest keeps its order, and for distinct objects the balance drops by exactly their sum. |
| `Wallets.Pick` | packages/pic-vouchers/src/sip_pic/wallet.py:50-57 | The greedy loop finds that shortest prefix. |
| `Wallets.DropConserves` | packages/pic-vouchers/src/sip_pic/wallet.py:59-60 | For any wallet, removal by identity loses nothing if and only if each picked object was picked as often as it was held. |
| `Client.PreparePayment` | packages/router/src/sip_router/client.py:239-282 | What a challenge is answered with, or that it raises, as a function of the challenge, the key and the balance; notes leave the wallet only when they are the payment, are then in the unit of the challenge and worth its price, and none of them could be spared. |
| `Client.MeansExact` | packages/router/src/sip_router/client.py:255-282 | In the fields of the challenge: exactly when it is paid with notes or with a signature, cannot be paid, or makes the client raise. |
| `Client.Failover` | packages/router/src/sip_router/client.py:284-300 | Reserved notes return to the wallet, and the label says whether a payment was at stake. |
| `Client.TryCandidate` | packages/router/src/sip_router/client.py:123-222 | The verdict on a provider, exceptions included, is determined by its replies and the balances; if it is skipped, the wallet keeps every note; if it serves, the answer is trustworthy; what it is given is in the unit of the challenge and covers its price. |
| `Client.ServesExactly` | packages/router/src/sip_router/client.py:147-222 | A provider serves if and only if it is healthy, its quote is in order and honoured when one is asked for, it can be paid if it asks for that, and its last reply is a 200 with a text that its receipt attests when receipts are verified. |
| `Client.InspectExact` | packages/router/src/sip_router/client.py:202-220 | Each label for a completion says what is wrong with it. |
| `Replies.AnswerRead` | packages/router/src/sip_router/client.py:410-421 | A completion as gateways write it is answered with the text of its first choice, however many there are. |
| `Client.Chat` | packages/router/src/sip_router/client.py:62-121 | For all replies and faults: notes left, sent and lost equal notes held; notes are lost if and only if a call is torn down while notes are reserved for a challenge above zero. The attempts are a prefix of the truncated ranking, only the last one ok; the first provider not skipped, judged on the initial balances, decides; a verified receipt binds that provider's key to the returned content, and a quote is honoured. |
| `Client.EscapesPaying` | packages/router/src/sip_router/client.py:180-222 | A call is torn down with notes reserved if and only if the provider gets as far as having them reserved and its paid reply traps: the exchange itself raises; the receipt names a key and a signature and cannot be encoded, or is valid for content that cannot be; the quote is the provider's and its expiry has no UTC equivalent, or it is running and NaN is charged in its unit; or a provider without a key serves unverified. |
| `Client.NothingLost` | packages/router/src/sip_router/client.py:183-222 | Whoever meets no such reply loses nothing. |
| `Client.NaNReceiptLoses` | packages/router/src/sip_router/client.py:216-217 | With default settings: a provider that asks for one pic and answers with a receipt naming any key and signature and holding NaN makes its customers lose notes. |
| `Client.LoseVoucher` | packages/router/src/sip_router/client.py:62-121 | End to end: a wallet of one note meets that provider; the call has no result and the wallet is empty. |
| `Client.SameBalances` | packages/router/src/sip_router/client.py:198-203 | A failed attempt leaves the balance of every unit unchanged, whatever the order of the notes. |
| `Scoring.DefaultScore` | packages/router/src/sip_router/scoring.py:27-113 | The score of a provider with plain numbers under the default weights, spelled out. |
| `Scoring.ScoreInRange` | packages/router/src/sip_router/scoring.py:46-113 | With non-negative weights scoring raises exactly when a number it reads cannot be read, is NaN exactly when some weight is positive and a rate or a used time to first token is NaN or the rates are opposite infinities, and otherwise lies in [0, 1]. |
| `Scoring.BetterScoresHigher` | packages/router/src/sip_router/scoring.py:46-113 | A provider that lists the model and the privacy mode whenever the other does, costs no more and answers no slower never scores lower, infinite rates included. |
| `Scoring.RankingCorrect` | packages/router/src/sip_router/scoring.py:116-118 | On numbers the ranking is a stable descending permutation. |
| `Scoring.RankingUnique` | packages/router/src/sip_router/scoring.py:116-118 | There is only one such order. |
| `Scoring.RankExact` | packages/router/src/sip_router/scoring.py:116-118 | For any scores: ranking raises exactly when scoring somebody does, otherwise loses and repeats nobody, and is best first when all scores are numbers. |
| `Scoring.RankStable` | packages/router/src/sip_router/scoring.py:116-118 | On numbers the ranking of providers is the stable descending one. |
| `Scoring.OneRunStays` | packages/router/src/sip_router/scoring.py:116-118 | If no score is below the next one, as next to NaN none is, nothing moves. |
| `Scoring.NaNRateMisranks` | packages/router/src/sip_router/scoring.py:62-68 | So a provider with a NaN rate between a worse and a better one keeps the worse in front. |
| `Scoring.ResolveRanks` | packages/router/src/sip_router/resolver.py:28-36 | Resolution offers exactly the providers of the model (asked to verify, the verified ones), each as often as registered, and best first when all their scores are numbers. It raises if and only if verifying one of the model, when asked to, or scoring one on offer does. |

## Left out

- SQLite storage, file locking and recovery of a corrupt spent set: each statement is one atomic step.
- Crashes in the middle of a rollback, and progress of overlapping batches (two of them may both be refused): the code promises neither.
- BlindCredits.RedeemBlindCredit: only on a table nobody else writes meanwhile, because the code reads and then inserts without looking at the result of the insertion.
- BlindCredits.ParseKey: Python's `int` also takes signs, spaces, underscores and other digits; only plain decimal exponents are read here.
- Base64Url.UnpaddedRoundTrip: about texts the encoder writes; the lenient treatment of foreign characters by Python's decoder is not modelled, so neither are alternative spellings of one serial.
- BlindCredits.IssuedCreditVerifies: denominations whose UTF-8 length does not fit four bytes and moduli beyond 2^32 hash blocks are excluded; there the code raises.
- Generation of RSA keys: a key is any pair of distinct primes with inverse exponents.
- Persistence of the ledger file; a sum that involves infinities or NaN is not computed, only told apart.
- Redemption.RedeemPayment: an infinite x402 amount, which the code accepts, is not modelled, and a batch holding something other than objects, on which the code raises before it writes anything, reads as one of vouchers without ids.
- Receipt prices on the payment-free path are printed as the code does but not bounded: they depend on token counts reported by the runtime.
- Negative rates: the quote bound and the amount texts are about non-negative prices.
- The `accepted_schemes` list of the gateway: it is advertised in the challenge and not consulted by redemption.
- Client.Chat: the contents of requests, headers and request ids are not modelled; that a request cannot be encoded is one way an exchange raises. For a wallet holding the same object twice only the order of attempts and the trust of the answer are stated, not conservation.
- Limits of the Python interpreter: nesting depth of JSON, and integers of more than 4300 digits, on which conversion to and from text raises (BlindCredits.KeyRoundTrip holds below them).
- Configs.ConfigRoundTrip: about the JSON document, not the indented text; fields of unexpected type are read as malformed, where the code coerces some of them to strings or booleans. A provider key that is not a string reads as missing.
- AppServer.ServerState.HandleAll: requests one at a time; overlapping ones are the subject of `Overlaps`.
- Scoring.ScoreInRange: sums and quotients are exact, so numbers that overflow in floating point are not modelled; the caller's weights are finite.
- Scoring.RankExact: with NaN among the scores the order depends on the inner workings of Python's sort; beyond Scoring.OneRunStays it is any permutation, and no exact condition for the order of the other providers is given.
- Registered manifests whose lists (models, privacy modes) are not lists, or whose benchmark or pricing is no object: the registry or scoring raises on them.
- The body of the app server's answers: it is read off the live state after a request has taken effect, and raises when a saved provider names no key.
- Wallets holding a voucher whose denomination is missing or unreadable: balance and select raise on it before anything leaves.
- Canonical.CanonicalInjective: keys that are not strings, on which the code coerces or raises, are out.
- Restore and source warnings shown by the app server, its status endpoints, authentication, CORS, the definition of a safe URL.
- FileDirectory announcements overwrite by key regardless of age, so freshness is stated for deduplication only; anchoring on Arweave is not modelled.
- Runtime and compute adapters, hardware scan, benchmarks, recommendation, policy, reputation, command line, demos, dashboard, desktop shell and the TypeScript SDK: input and output, user interface, or single-function claims easier than those here.
