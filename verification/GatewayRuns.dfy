/**
 * One gateway serving paid requests while any number of other redemptions, its own and other
 * workers', interleave over the same spent set.
 */
module GatewayRuns {
  import opened Prelude
  import opened Payments
  import opened Redemption
  import opened Interleaving
  import opened Amounts
  import opened Ledgers
  import opened Gateways

  datatype Stage =
    | Verifying
    | Serving
    | Committing(run: nat)
    | Challenged(price: string, commitRun: Option<nat>)   // 402
    | Failed                                              // 502
    | Broken(commitRun: Option<nat>)                      // 500: redemption raised
    | Paid(receiptPrice: string, run: nat)                // 200
    | Unanswered(run: nat)                                // 500: the payment is taken, making the receipt raised

  /** `receiptable` foretells whether a receipt for the answer can be made. */
  datatype Request = Request(payment: Payment, micros: nat, unit: string, receiptable: bool, verifyRun: nat, stage: Stage)

  /** The payment has been taken. */
  predicate Taken(stage: Stage) {
    stage.Paid? || stage.Unanswered?
  }

  /** `settled` is history: the requests behind the ledger entries, in order. */
  datatype State = State(core: System, requests: seq<Request>, ledger: seq<Entry>, settled: seq<nat>)

  datatype Event =
    | Arrive(payment: Payment, micros: nat, unit: string, receiptable: bool, terms: Terms)  // admitted; verification begins
    | Proceed(i: nat, served: bool, terms: Terms)        // request i takes its next local step
    | Other(action: Action)                              // any redemption anywhere begins or advances

  function Billed(payment: Payment, micros: nat, unit: string, terms: Terms, commit: bool): Call {
    Call(payment, terms.(price := ToReal(micros), unit := unit), commit)
  }

  function EntryOf(provider: string, q: Request): Entry {
    Entry(provider, FormatAmount(q.micros), q.unit, PaymentRefs(q.payment))
  }

  predicate Finished(core: System, run: nat) {
    run < |core.runs| && core.runs[run].pc.Done?
  }

  function Result(core: System, run: nat): RedeemResult {
    if Finished(core, run) then core.runs[run].pc.result else Accepted(0.0)
  }

  function Next(g: State, e: Event, provider: string): State {
    match e
    case Arrive(payment, micros, unit, receiptable, terms) =>
      g.(core := Apply(g.core, Begin(Billed(payment, micros, unit, terms, false))),
         requests := g.requests + [Request(payment, micros, unit, receiptable, |g.core.runs|, Verifying)])
    case Proceed(i, served, terms) =>
      if i < |g.requests| then Step(g, i, served, terms, provider) else g
    case Other(action) => g.(core := Apply(g.core, action))
  }

  function Step(g: State, i: nat, served: bool, terms: Terms, provider: string): State
    requires i < |g.requests|
  {
    var q := g.requests[i];
    match q.stage
    case Verifying =>
      if !Finished(g.core, q.verifyRun) then g
      else if Result(g.core, q.verifyRun).ok then Move(g, i, Serving)
      else Move(g, i, Refusal(Result(g.core, q.verifyRun), q, None))
    case Serving =>
      if !served then Move(g, i, Failed)
      else
        Move(g, i, Committing(|g.core.runs|)).(
          core := Apply(g.core, Begin(Billed(q.payment, q.micros, q.unit, terms, true))))
    case Committing(run) =>
      if !Finished(g.core, run) then g
      else if Result(g.core, run).ok then
        Move(g, i, if q.receiptable then Paid(FormatAmount(q.micros), run) else Unanswered(run)).(
          ledger := g.ledger + [EntryOf(provider, q)],
          settled := g.settled + [i])
      else Move(g, i, Refusal(Result(g.core, run), q, Some(run)))
    case _ => g
  }

  function Refusal(r: RedeemResult, q: Request, commitRun: Option<nat>): Stage {
    if r.reason == Crashed then Broken(commitRun) else Challenged(FormatAmount(q.micros), commitRun)
  }

  function Move(g: State, i: nat, stage: Stage): State
    requires i < |g.requests|
  {
    g.(requests := g.requests[i := g.requests[i].(stage := stage)])
  }

  function Run(rows: set<string>, events: seq<Event>, provider: string): State {
    if events == [] then State(Initial(rows), [], [], [])
    else Next(Run(rows, events[..|events| - 1], provider), events[|events| - 1], provider)
  }

  // ---------------------------------------------------------------- invariant

  /** The commit run of a request, once it has one. */
  function CommitRun(q: Request): Option<nat> {
    match q.stage
    case Committing(run) => Some(run)
    case Challenged(_, run) => run
    case Broken(run) => run
    case Paid(_, run) => Some(run)
    case Unanswered(run) => Some(run)
    case _ => None
  }

  predicate Bills(call: Call, q: Request, commit: bool) {
    call.payment == q.payment && call.terms.price == ToReal(q.micros) && call.terms.unit == q.unit && call.commit == commit
  }

  /** The status a request is answered with, None before that. */
  function Answered(stage: Stage): Option<int> {
    match stage
    case Challenged(_, _) => Some(402)
    case Failed => Some(502)
    case Broken(_) => Some(500)
    case Paid(_, _) => Some(200)
    case Unanswered(_) => Some(500)
    case _ => None
  }

  /** The answer is the one the gateway decides on from the results of the redemptions. */
  predicate Decided(core: System, q: Request) {
    var run := CommitRun(q);
    Answered(q.stage)
    == Some(Decide(Result(core, q.verifyRun), !q.stage.Failed?, if run.Some? then Result(core, run.value) else Accepted(0.0),
                   q.receiptable))
  }

  ghost predicate RequestOk(core: System, q: Request) {
    && q.verifyRun < |core.runs| && Bills(core.runs[q.verifyRun].call, q, false)
    && (!q.stage.Verifying? ==> Finished(core, q.verifyRun))
    && (q.stage.Serving? || q.stage.Committing? ==> Result(core, q.verifyRun).ok)
    && (Answered(q.stage).Some? ==> Decided(core, q))
    && (CommitRun(q).Some? ==>
          CommitRun(q).value < |core.runs| && Bills(core.runs[CommitRun(q).value].call, q, true))
    && match q.stage
       case Challenged(price, run) =>
         && price == FormatAmount(q.micros)
         && (run.Some? ==> core.runs[run.value].pc.Done? && !core.runs[run.value].pc.result.ok)
       case Broken(run) => run.Some? ==> core.runs[run.value].pc.Done? && !core.runs[run.value].pc.result.ok
       case Paid(price, run) => price == FormatAmount(q.micros) && Committed(core.runs[run]) && q.receiptable
       case Unanswered(run) => Committed(core.runs[run]) && !q.receiptable
       case _ => true
  }

  ghost predicate Separate(requests: seq<Request>) {
    forall i, j :: 0 <= i < j < |requests| && CommitRun(requests[i]).Some? ==> CommitRun(requests[i]) != CommitRun(requests[j])
  }

  ghost predicate Booked(g: State, provider: string) {
    && Distinct(g.settled)
    && (forall i :: 0 <= i < |g.requests| ==> (Taken(g.requests[i].stage) <==> i in g.settled))
    && (forall k :: 0 <= k < |g.settled| ==> g.settled[k] < |g.requests|)
    && |g.ledger| == |g.settled|
    && (forall k :: 0 <= k < |g.settled| ==> g.ledger[k] == EntryOf(provider, g.requests[g.settled[k]]))
  }

  ghost predicate Inv(g: State, rows: set<string>, provider: string) {
    && Interleaving.Inv(g.core, rows)
    && (forall i :: 0 <= i < |g.requests| ==> RequestOk(g.core, g.requests[i]))
    && Separate(g.requests)
    && Booked(g, provider)
  }

  /** Runs are never removed, keep their call, and once done do not change. */
  lemma CoreStable(core: System, rows: set<string>, a: Action)
    requires Interleaving.Inv(core, rows)
    ensures var next := Apply(core, a);
            && Interleaving.Inv(next, rows)
            && |core.runs| <= |next.runs|
            && (forall r :: 0 <= r < |core.runs| ==> next.runs[r].call == core.runs[r].call)
            && (forall r :: 0 <= r < |core.runs| && core.runs[r].pc.Done? ==> next.runs[r] == core.runs[r])
  {
    ApplyInv(core, a, rows);
    if a.Advance? && a.i < |core.runs| && !core.runs[a.i].pc.Done? {
      StepProgress(core.runs[a.i], core.spent);
    }
  }

  lemma OkStable(core: System, next: System, q: Request)
    requires RequestOk(core, q)
    requires |core.runs| <= |next.runs|
    requires forall r :: 0 <= r < |core.runs| ==> next.runs[r].call == core.runs[r].call
    requires forall r :: 0 <= r < |core.runs| && core.runs[r].pc.Done? ==> next.runs[r] == core.runs[r]
    ensures RequestOk(next, q)
  {
  }

  lemma CoreStep(g: State, rows: set<string>, provider: string, a: Action)
    requires Inv(g, rows, provider)
    ensures Inv(g.(core := Apply(g.core, a)), rows, provider)
  {
    CoreStable(g.core, rows, a);
    forall i | 0 <= i < |g.requests| ensures RequestOk(Apply(g.core, a), g.requests[i]) {
      OkStable(g.core, Apply(g.core, a), g.requests[i]);
    }
  }

  /** A request changes stage without being settled. */
  lemma MoveInv(g: State, rows: set<string>, provider: string, i: nat, stage: Stage)
    requires Inv(g, rows, provider) && i < |g.requests|
    requires !Taken(g.requests[i].stage) && !Taken(stage)
    requires RequestOk(g.core, g.requests[i].(stage := stage))
    requires CommitRun(g.requests[i].(stage := stage)).Some? ==>
               forall j :: 0 <= j < |g.requests| && j != i ==>
                 CommitRun(g.requests[j]) != CommitRun(g.requests[i].(stage := stage))
    ensures Inv(Move(g, i, stage), rows, provider)
  {
  }

  lemma NextInv(g: State, rows: set<string>, provider: string, e: Event)
    requires Inv(g, rows, provider)
    ensures Inv(Next(g, e, provider), rows, provider)
  {
    hide Inv;
    match e
    case Arrive(payment, micros, unit, receiptable, terms) =>
      ArriveInv(g, rows, provider, payment, micros, unit, receiptable, terms);
    case Proceed(i, served, terms) =>
      if i < |g.requests| {
        StepInv(g, rows, provider, i, served, terms);
      }
    case Other(action) => CoreStep(g, rows, provider, action);
  }

  lemma ArriveInv(g: State, rows: set<string>, provider: string, payment: Payment, micros: nat, unit: string,
                  receiptable: bool, terms: Terms)
    requires Inv(g, rows, provider)
    ensures Inv(Next(g, Arrive(payment, micros, unit, receiptable, terms), provider), rows, provider)
  {
    hide Interleaving.Inv, FormatAmount, PaymentRefs;
    var a := Begin(Billed(payment, micros, unit, terms, false));
    CoreStep(g, rows, provider, a);
    StartWellFormed(a.call);
    var h := Next(g, Arrive(payment, micros, unit, receiptable, terms), provider);
    assert h.core.runs[|g.core.runs|].call == a.call;
    assert RequestOk(h.core, h.requests[|g.requests|]);
    assert h.requests[..|g.requests|] == g.requests;
  }

  lemma StepInv(g: State, rows: set<string>, provider: string, i: nat, served: bool, terms: Terms)
    requires Inv(g, rows, provider) && i < |g.requests|
    ensures Inv(Step(g, i, served, terms, provider), rows, provider)
  {
    hide Inv;
    match g.requests[i].stage
    case Verifying => EndVerify(g, rows, provider, i, served, terms);
    case Serving =>
      if served {
        BeginCommit(g, rows, provider, i, terms);
      } else {
        FailServing(g, rows, provider, i);
      }
    case Committing(_) => EndCommit(g, rows, provider, i, served, terms);
    case _ =>
  }

  lemma EndVerify(g: State, rows: set<string>, provider: string, i: nat, served: bool, terms: Terms)
    requires Inv(g, rows, provider) && i < |g.requests| && g.requests[i].stage.Verifying?
    ensures Inv(Step(g, i, served, terms, provider), rows, provider)
  {
    hide Interleaving.Inv, FormatAmount, Booked, Separate;
    var q := g.requests[i];
    if Finished(g.core, q.verifyRun) {
      MoveInv(g, rows, provider, i,
              if Result(g.core, q.verifyRun).ok then Serving else Refusal(Result(g.core, q.verifyRun), q, None));
    }
  }

  lemma FailServing(g: State, rows: set<string>, provider: string, i: nat)
    requires Inv(g, rows, provider) && i < |g.requests| && g.requests[i].stage.Serving?
    ensures Inv(Move(g, i, Failed), rows, provider)
  {
    hide Interleaving.Inv, FormatAmount, Booked, Separate;
    MoveInv(g, rows, provider, i, Failed);
  }

  lemma EndCommit(g: State, rows: set<string>, provider: string, i: nat, served: bool, terms: Terms)
    requires Inv(g, rows, provider) && i < |g.requests| && g.requests[i].stage.Committing?
    ensures Inv(Step(g, i, served, terms, provider), rows, provider)
  {
    hide Interleaving.Inv, FormatAmount, Booked;
    var q := g.requests[i];
    var run := q.stage.run;
    if Finished(g.core, run) {
      if Result(g.core, run).ok {
        Settle(g, rows, provider, i, served, terms);
      } else {
        MoveInv(g, rows, provider, i, Refusal(Result(g.core, run), q, Some(run)));
      }
    }
  }

  lemma BeginCommit(g: State, rows: set<string>, provider: string, i: nat, terms: Terms)
    requires Inv(g, rows, provider) && i < |g.requests| && g.requests[i].stage.Serving?
    ensures Inv(Step(g, i, true, terms, provider), rows, provider)
  {
    var q := g.requests[i];
    var a := Begin(Billed(q.payment, q.micros, q.unit, terms, true));
    var h := g.(core := Apply(g.core, a));
    CoreStep(g, rows, provider, a);
    StartWellFormed(a.call);
    assert h.core.runs[|g.core.runs|].call == a.call;
    forall j | 0 <= j < |g.requests| && j != i ensures CommitRun(g.requests[j]) != Some(|g.core.runs|) {
      assert RequestOk(g.core, g.requests[j]);
    }
    MoveInv(h, rows, provider, i, Committing(|g.core.runs|));
    assert Step(g, i, true, terms, provider) == Move(h, i, Committing(|g.core.runs|));
  }

  lemma Settle(g: State, rows: set<string>, provider: string, i: nat, served: bool, terms: Terms)
    requires Inv(g, rows, provider) && i < |g.requests| && g.requests[i].stage.Committing?
    requires Finished(g.core, g.requests[i].stage.run) && Result(g.core, g.requests[i].stage.run).ok
    ensures Inv(Step(g, i, served, terms, provider), rows, provider)
  {
    hide Interleaving.Inv, FormatAmount, PaymentRefs;
    assert RequestOk(g.core, g.requests[i]);
  }

  lemma {:induction false} RunInv(rows: set<string>, events: seq<Event>, provider: string)
    ensures Inv(Run(rows, events, provider), rows, provider)
  {
    if events == [] {
      ExecuteInv(rows, []);
    } else {
      RunInv(rows, events[..|events| - 1], provider);
      NextInv(Run(rows, events[..|events| - 1], provider), rows, provider, events[|events| - 1]);
    }
  }

  // ---------------------------------------------------------------- accounting

  /**
   * A step of the gateway books at most one entry, exactly when one payment is taken, at that request's
   * price; the request is answered 200 at this price if a receipt can be made, and 500 otherwise.
   */
  lemma LedgerStep(g: State, e: Event, provider: string)
    ensures var h := Next(g, e, provider);
            || (h.ledger == g.ledger && TakenSet(h) == TakenSet(g))
            || (exists i :: && 0 <= i < |h.requests| && i !in TakenSet(g) && TakenSet(h) == TakenSet(g) + {i}
                            && h.ledger == g.ledger + [EntryOf(provider, h.requests[i])]
                            && (h.requests[i].receiptable ==>
                                  h.requests[i].stage.Paid? && h.ledger[|g.ledger|].amount == h.requests[i].stage.receiptPrice)
                            && (!h.requests[i].receiptable ==> h.requests[i].stage.Unanswered?))
  {
    hide Apply, Start, FormatAmount, PaymentRefs;
    var h := Next(g, e, provider);
    if e.Proceed? && h.ledger != g.ledger {
      var i := e.i;
      assert h.requests == g.requests[i := h.requests[i]];
      assert TakenSet(h) == TakenSet(g) + {i};
      assert h.ledger[|g.ledger|] == EntryOf(provider, h.requests[i]);
    } else {
      assert TakenSet(h) == TakenSet(g);
    }
  }

  function TakenSet(g: State): set<nat> {
    set i | 0 <= i < |g.requests| && Taken(g.requests[i].stage)
  }

  /** Face value consumed for the first n ledger entries, in one unit. */
  function Consumed(g: State, unit: string, n: nat): real
    requires n <= |g.settled|
  {
    if n == 0 then 0.0 else Consumed(g, unit, n - 1) + Contribution(g, unit, g.settled[n - 1])
  }

  function Contribution(g: State, unit: string, i: nat): real {
    if i < |g.requests| && g.requests[i].unit == unit then ConsumedBy(g, g.requests[i]) else 0.0
  }

  function ConsumedBy(g: State, q: Request): real {
    var run := CommitRun(q);
    if run.Some? && run.value < |g.core.runs| then Value(g.core.runs[run.value].call) else 0.0
  }

  /** What the gateway asks redemption for is what the machine bills: the price of the request, in its unit. */
  lemma BillsRequests(g: Gateway, r: ChatRequest, now: real, commit: bool)
    requires g.Admitted(r)
    ensures g.RedeemCall(r, now, commit)
         == Billed(r.body.value.payment, g.Price(r), g.config.unit,
                   Terms(0.0, "", g.config.issuers, now, Some(g.config.pubkey), Some(r.requestId)), commit)
  {
    hide Gateway.Price, ToReal;
  }

  /** A payment taken was good, worth the price of its request and in its unit; and it counts for that unit, in full. */
  lemma TakenIsGood(rows: set<string>, events: seq<Event>, provider: string, i: nat)
    requires i < |Run(rows, events, provider).requests| && Taken(Run(rows, events, provider).requests[i].stage)
    ensures var q := Run(rows, events, provider).requests[i];
            match q.payment
            case Pic(Some(vs)) =>
              && Face(vs) >= ToReal(q.micros)
              && (forall v :: v in vs ==> v.verified.Passes? && v.unit == Some(q.unit) && v.expires.At? && v.denomination.Some?)
              && forall unit :: Contribution(Run(rows, events, provider), unit, i) == if unit == q.unit then Face(vs) else 0.0
            case X402(Some(a)) =>
              && a.signed.Passes? && a.unit == Some(q.unit) && a.amount.Some? && a.amount.value >= ToReal(q.micros)
              && forall unit :: Contribution(Run(rows, events, provider), unit, i) == if unit == q.unit then a.amount.value else 0.0
            case _ => false
  {
    hide Run, Interleaving.Inv, Booked, Separate, Face, ToReal, Ids;
    RunInv(rows, events, provider);
    var g := Run(rows, events, provider);
    assert RequestOk(g.core, g.requests[i]);
    CommittedIsAcceptable(g.core, rows, g.requests[i].stage.run);
  }

  /** A request whose payment was taken consumed at least its price. */
  lemma TakenCovers(g: State, rows: set<string>, provider: string, i: nat)
    requires Inv(g, rows, provider) && i < |g.requests| && Taken(g.requests[i].stage)
    ensures ConsumedBy(g, g.requests[i]) >= ToReal(g.requests[i].micros)
  {
    var run := g.requests[i].stage.run;
    assert RequestOk(g.core, g.requests[i]);
    assert WellFormed(g.core.runs[run]);
    AcceptableKeys(g.core.runs[run].call);
  }

  /** Decimal reads plain decimals as written. */
  ghost predicate ReadsPlain(read: Reader) {
    forall text :: ParseDecimal(text).Some? ==> read(text) == ParseDecimal(text)
  }

  lemma PlainReader()
    ensures ReadsPlain(ParseDecimal)
  {
  }

  /** A ledger entry is worth no more than what its request consumed. */
  lemma EntryCovered(g: State, rows: set<string>, provider: string, read: Reader, unit: string, k: nat)
    requires Inv(g, rows, provider) && ReadsPlain(read) && k < |g.settled|
    ensures k < |g.ledger|
    ensures Worth(read, Some(unit))(g.ledger[k]) <= Contribution(g, unit, g.settled[k])
  {
    hide Interleaving.Inv, RequestOk, Separate, ConsumedBy, FormatAmount, ParseDecimal;
    var i := g.settled[k];
    assert i in g.settled;
    TakenCovers(g, rows, provider, i);
    FormatRoundTrip(g.requests[i].micros);
  }

  lemma {:induction false} TotalCovered(g: State, rows: set<string>, provider: string, read: Reader, unit: string, n: nat)
    requires Inv(g, rows, provider) && ReadsPlain(read) && n <= |g.settled| && n <= |g.ledger|
    ensures Sum(g.ledger[..n], Worth(read, Some(unit))) <= Consumed(g, unit, n)
  {
    hide Inv, Contribution, Worth, ReadsPlain;
    if n > 0 {
      hide Sum;
      TotalCovered(g, rows, provider, read, unit, n - 1);
      SumNext(g.ledger, Worth(read, Some(unit)), n - 1);
      EntryCovered(g, rows, provider, read, unit, n - 1);
    }
  }

  /**
   * In every run: the ledger total of a unit never exceeds the face value consumed for it, every entry
   * is readable and stands for one request whose payment was taken. Such a request was answered at the
   * price of its entry if and only if a receipt could be made for it.
   */
  lemma LedgerBacked(rows: set<string>, events: seq<Event>, provider: string, read: Reader, unit: string)
    requires ReadsPlain(read)
    ensures var g := Run(rows, events, provider);
            && Sum(g.ledger, Worth(read, Some(unit))) <= Consumed(g, unit, |g.settled|)
            && |g.ledger| == |g.settled| && Distinct(g.settled)
            && (forall i :: 0 <= i < |g.requests| ==> (Taken(g.requests[i].stage) <==> i in g.settled))
            && (forall k :: 0 <= k < |g.ledger| ==>
                  && g.settled[k] < |g.requests|
                  && var q := g.requests[g.settled[k]];
                     && Taken(q.stage) && (q.stage.Paid? <==> q.receiptable)
                     && (q.stage.Paid? ==> g.ledger[k].amount == q.stage.receiptPrice)
                     && g.ledger[k].unit == q.unit
                     && ParseDecimal(g.ledger[k].amount) == Some(ToReal(q.micros)))
  {
    hide Run, Interleaving.Inv, FormatAmount, ParseDecimal, Sum, Consumed;
    RunInv(rows, events, provider);
    var g := Run(rows, events, provider);
    TotalCovered(g, rows, provider, read, unit, |g.settled|);
    assert g.ledger[..|g.settled|] == g.ledger;
    forall k | 0 <= k < |g.ledger|
      ensures var q := g.requests[g.settled[k]];
              && Taken(q.stage) && (q.stage.Paid? <==> q.receiptable)
              && (q.stage.Paid? ==> g.ledger[k].amount == q.stage.receiptPrice)
              && ParseDecimal(g.ledger[k].amount) == Some(ToReal(q.micros))
    {
      assert g.settled[k] in g.settled;
      assert RequestOk(g.core, g.requests[g.settled[k]]);
      FormatRoundTrip(g.requests[g.settled[k]].micros);
    }
  }

  /**
   * Every answer is the one the code decides on: the results of the request's own two redemptions, both
   * at its price and unit, fix the status as they do for the method.
   */
  lemma StatusDecided(rows: set<string>, events: seq<Event>, provider: string, i: nat)
    requires i < |Run(rows, events, provider).requests|
    requires Answered(Run(rows, events, provider).requests[i].stage).Some?
    ensures var g := Run(rows, events, provider);
            var q := g.requests[i];
            && q.verifyRun < |g.core.runs|
            && var check := g.core.runs[q.verifyRun];
               && check.pc.Done? && Bills(check.call, q, false)
               && match CommitRun(q)
                  case None => Answered(q.stage) == Some(Decide(check.pc.result, !q.stage.Failed?, Accepted(0.0), q.receiptable))
                  case Some(run) =>
                    && run < |g.core.runs| && g.core.runs[run].pc.Done? && Bills(g.core.runs[run].call, q, true)
                    && Answered(q.stage) == Some(Decide(check.pc.result, true, g.core.runs[run].pc.result, q.receiptable))
  {
    hide Run, Interleaving.Inv, Booked, Separate;
    RunInv(rows, events, provider);
    assert RequestOk(Run(rows, events, provider).core, Run(rows, events, provider).requests[i]);
  }

  /** Challenge, receipt and redemption of one request name the same price, and the price reads back exactly. */
  lemma PricesAgree(rows: set<string>, events: seq<Event>, provider: string, i: nat)
    requires i < |Run(rows, events, provider).requests|
    ensures var g := Run(rows, events, provider);
            var q := g.requests[i];
            && (q.stage.Challenged? ==> ParseDecimal(q.stage.price) == Some(ToReal(q.micros)))
            && (q.stage.Paid? ==> ParseDecimal(q.stage.receiptPrice) == Some(ToReal(q.micros)))
            && (Taken(q.stage) ==>
                  && q.stage.run < |g.core.runs|
                  && g.core.runs[q.stage.run].call.terms.price == ToReal(q.micros))
  {
    hide Run, Interleaving.Inv, Booked, Separate, FormatAmount, ParseDecimal;
    RunInv(rows, events, provider);
    var g := Run(rows, events, provider);
    assert RequestOk(g.core, g.requests[i]);
    FormatRoundTrip(g.requests[i].micros);
  }

  /** An entry for a PIC payment cites exactly the ids it consumed, in order, and all of them are spent. */
  lemma LedgerCitesKeys(rows: set<string>, events: seq<Event>, provider: string, k: nat)
    requires var g := Run(rows, events, provider);
             && k < |g.settled| && g.settled[k] < |g.requests| && g.requests[g.settled[k]].payment.Pic?
    ensures var g := Run(rows, events, provider);
            var q := g.requests[g.settled[k]];
            && Taken(q.stage) && q.stage.run < |g.core.runs|
            && k < |g.ledger| && g.ledger[k].refs == Keys(g.core.runs[q.stage.run].call)
            && Elements(g.ledger[k].refs) <= g.core.spent
  {
    hide Run, Interleaving.Inv, Separate, Held, Placed, FormatAmount, VoucherRefs;
    RunInv(rows, events, provider);
    var g := Run(rows, events, provider);
    var i := g.settled[k];
    assert i in g.settled;
    assert RequestOk(g.core, g.requests[i]);
    var run := g.requests[i].stage.run;
    CommittedIsAcceptable(g.core, rows, run);
    RefsAreKeys(g.requests[i].payment.vouchers.value);
    HeldApart(g.core, rows, run);
    CommittedHolds(g.core.runs[run]);
  }

  lemma CommittedIsAcceptable(core: System, rows: set<string>, run: nat)
    requires Interleaving.Inv(core, rows) && run < |core.runs| && Committed(core.runs[run])
    ensures Acceptable(core.runs[run].call)
  {
    assert WellFormed(core.runs[run]);
  }

  /** The credits behind two payments taken are disjoint and all of them are spent. */
  lemma TakenApart(rows: set<string>, events: seq<Event>, provider: string, i: nat, j: nat)
    requires var g := Run(rows, events, provider);
             i < j < |g.requests| && Taken(g.requests[i].stage) && Taken(g.requests[j].stage)
    ensures var g := Run(rows, events, provider);
            var a, b := g.requests[i].stage.run, g.requests[j].stage.run;
            && a < |g.core.runs| && b < |g.core.runs|
            && Elements(Keys(g.core.runs[a].call)) !! Elements(Keys(g.core.runs[b].call))
            && Elements(Keys(g.core.runs[a].call)) <= g.core.spent
  {
    hide Run, Interleaving.Inv, Booked, Keys, Held, Placed;
    RunInv(rows, events, provider);
    var g := Run(rows, events, provider);
    var a, b := g.requests[i].stage.run, g.requests[j].stage.run;
    assert RequestOk(g.core, g.requests[i]) && RequestOk(g.core, g.requests[j]);
    assert CommitRun(g.requests[i]) != CommitRun(g.requests[j]);
    HeldApart(g.core, rows, a);
    CommittedHolds(g.core.runs[a]);
    CommittedHolds(g.core.runs[b]);
  }

  /** A request answered 402, 502, or 500 because redemption raised, owns no row of the table. */
  lemma RefusedConsumesNothing(rows: set<string>, events: seq<Event>, provider: string, i: nat)
    requires var g := Run(rows, events, provider);
             && i < |g.requests|
             && (g.requests[i].stage.Challenged? || g.requests[i].stage.Failed? || g.requests[i].stage.Broken?)
    ensures var g := Run(rows, events, provider);
            var run := CommitRun(g.requests[i]);
            && (g.requests[i].stage.Failed? ==> run.None?)
            && (run.Some? ==> forall k :: k in g.core.owner ==> g.core.owner[k] != run.value)
  {
    RunInv(rows, events, provider);
    var g := Run(rows, events, provider);
    assert RequestOk(g.core, g.requests[i]);
    var run := CommitRun(g.requests[i]);
    if run.Some? {
      assert Held(g.core.runs[run.value]) == {};
    }
  }

  // ---------------------------------------------------------------- a request left alone

  lemma RunNext(rows: set<string>, events: seq<Event>, provider: string, e: Event)
    ensures Run(rows, events + [e], provider) == Next(Run(rows, events, provider), e, provider)
  {
    assert (events + [e])[..|events|] == events;
  }

  /** Nothing but one redemption has gone on, to its end. */
  ghost predicate Driven(g: State, h: State, run: nat)
    requires run < |g.core.runs| && Placed(g.core.runs[run])
  {
    && h.requests == g.requests && h.ledger == g.ledger && h.settled == g.settled
    && |h.core.runs| == |g.core.runs| && (forall j :: 0 <= j < |g.core.runs| && j != run ==> h.core.runs[j] == g.core.runs[j])
    && h.core.runs[run].pc.Done?
    && (h.core.runs[run].pc.result, h.core.spent) == Finish(g.core.runs[run], g.core.spent)
  }

  /** A redemption scheduled alone comes to the end it has alone. */
  lemma {:induction false} DriveAlone(rows: set<string>, events: seq<Event>, provider: string, run: nat) returns (more: seq<Event>)
    requires var g := Run(rows, events, provider); run < |g.core.runs| && Placed(g.core.runs[run])
    ensures Driven(Run(rows, events, provider), Run(rows, events + more, provider), run)
    decreases Remaining(Run(rows, events, provider).core.runs[run])
  {
    hide Run;
    var g := Run(rows, events, provider);
    if g.core.runs[run].pc.Done? {
      more := [];
      assert events + more == events;
    } else {
      var e := Other(Advance(run));
      RunNext(rows, events, provider, e);
      StepProgress(g.core.runs[run], g.core.spent);
      more := DriveAlone(rows, events + [e], provider, run);
      assert events + [e] + more == events + ([e] + more);
      more := [e] + more;
    }
  }

  /** A request that arrives and is left alone has its payment verified on the rows it finds. */
  lemma VerifiedAlone(rows: set<string>, events: seq<Event>, provider: string, arrival: Event) returns (more: seq<Event>)
    requires arrival.Arrive?
    ensures var g, h := Run(rows, events, provider), Run(rows, events + [arrival] + more, provider);
            var call := Billed(arrival.payment, arrival.micros, arrival.unit, arrival.terms, false);
            && |h.requests| == |g.requests| + 1 && h.ledger == g.ledger && h.core.spent == g.core.spent
            && var q := h.requests[|g.requests|];
               && q == Request(arrival.payment, arrival.micros, arrival.unit, arrival.receiptable, |g.core.runs|, Verifying)
               && Finished(h.core, q.verifyRun) && Result(h.core, q.verifyRun) == Redeem(call, g.core.spent).0
  {
    hide Run, Finish, Start;
    var g := Run(rows, events, provider);
    var call := Billed(arrival.payment, arrival.micros, arrival.unit, arrival.terms, false);
    RunNext(rows, events, provider, arrival);
    StartWellFormed(call);
    more := DriveAlone(rows, events + [arrival], provider, |g.core.runs|);
    RedeemAllOrNothing(call, g.core.spent);
  }

  /** A request that has been served and is left alone commits on the rows it finds, and is answered. */
  lemma CommittedAlone(rows: set<string>, events: seq<Event>, provider: string, i: nat, terms: Terms) returns (more: seq<Event>)
    requires var g := Run(rows, events, provider); i < |g.requests| && g.requests[i].stage.Serving?
    ensures var g, h := Run(rows, events, provider), Run(rows, events + more, provider);
            var q := g.requests[i];
            var (commit, spent) := Redeem(Billed(q.payment, q.micros, q.unit, terms, true), g.core.spent);
            && i < |h.requests| && h.core.spent == spent
            && Answered(h.requests[i].stage) == Some(Decide(Accepted(0.0), true, commit, q.receiptable))
            && h.ledger == g.ledger + if commit.ok then [EntryOf(provider, q)] else []
  {
    hide Run, Finish, Start, FormatAmount, PaymentRefs;
    var g := Run(rows, events, provider);
    var q := g.requests[i];
    var call := Billed(q.payment, q.micros, q.unit, terms, true);
    var e := Proceed(i, true, terms);
    RunNext(rows, events, provider, e);
    StartWellFormed(call);
    var driven := DriveAlone(rows, events + [e], provider, |g.core.runs|);
    RunNext(rows, events + [e] + driven, provider, e);
    more := [e] + driven + [e];
    assert events + more == events + [e] + driven + [e];
  }

  /**
   * The machine comes to an end, and to the right one: from any point of any run a request that arrives and is
   * left alone is answered as the method answers it on the rows it finds, with the same effect on rows and ledger.
   */
  lemma AnsweredAlone(rows: set<string>, events: seq<Event>, provider: string, arrival: Event, served: bool, terms: Terms)
      returns (more: seq<Event>)
    requires arrival.Arrive?
    ensures var g, h := Run(rows, events, provider), Run(rows, events + [arrival] + more, provider);
            var check := Redeem(Billed(arrival.payment, arrival.micros, arrival.unit, arrival.terms, false), g.core.spent).0;
            var (commit, spent) := Redeem(Billed(arrival.payment, arrival.micros, arrival.unit, terms, true), g.core.spent);
            var taken := check.ok && served && commit.ok;
            && |g.requests| < |h.requests|
            && Answered(h.requests[|g.requests|].stage) == Some(Decide(check, served, commit, arrival.receiptable))
            && h.core.spent == (if taken then spent else g.core.spent)
            && h.ledger == g.ledger
                 + if taken then [Entry(provider, FormatAmount(arrival.micros), arrival.unit, PaymentRefs(arrival.payment))] else []
  {
    hide Run, Redeem, FormatAmount, PaymentRefs;
    var g := Run(rows, events, provider);
    var i := |g.requests|;
    var verified := VerifiedAlone(rows, events, provider, arrival);
    var e := Proceed(i, served, terms);
    var so := events + [arrival] + verified;
    RunNext(rows, so, provider, e);
    more := verified + [e];
    assert events + [arrival] + more == so + [e];
    var check := Redeem(Billed(arrival.payment, arrival.micros, arrival.unit, arrival.terms, false), g.core.spent).0;
    if check.ok {
      if served {
        var committed := CommittedAlone(rows, so + [e], provider, i, terms);
        more := verified + [e] + committed;
        assert events + [arrival] + more == so + [e] + committed;
        RedeemAllOrNothing(Billed(arrival.payment, arrival.micros, arrival.unit, terms, true), g.core.spent);
      } else {
        RunNext(rows, so + [e], provider, e);
        more := verified + [e, e];
        assert events + [arrival] + more == so + [e] + [e];
      }
    }
  }
}
