/** The double-spend guard shared by every redemption (packages/pic-vouchers/src/sip_pic/spentset.py). */
module SpentSets {

  /** A statement that took effect on the table. */
  datatype Write = Inserted(key: string) | Deleted(key: string)

  function Inserts(keys: seq<string>): (w: seq<Write>)
    ensures |w| == |keys|
  {
    seq(|keys|, i requires 0 <= i < |keys| => Inserted(keys[i]))
  }

  function Deletes(keys: seq<string>): (w: seq<Write>)
    ensures |w| == |keys|
  {
    seq(|keys|, i requires 0 <= i < |keys| => Deleted(keys[i]))
  }

  class SpentSet {
    /** True for a file that other workers have open too, false for an in-memory table. */
    const shared: bool
    /** The rows of the table `spent`. */
    var spent: set<string>
    /** The effective statements issued through this connection, oldest first. */
    ghost var writes: seq<Write>
    /** The rows this connection has found at each of its turns, oldest first. */
    ghost var seen: seq<set<string>>

    constructor (shared: bool, rows: set<string>)
      ensures this.shared == shared && spent == rows && writes == [] && seen == []
    {
      this.shared := shared;
      spent := rows;
      writes := [];
      seen := [];
    }

    method IsSpent(key: string) returns (known: bool)
      ensures known <==> key in spent
    {
      known := key in spent;
    }

    /** INSERT under the UNIQUE constraint: the first writer of a key wins. */
    method Spend(key: string) returns (won: bool)
      modifies this
      ensures won <==> key !in old(spent)
      ensures spent == if won then old(spent) + {key} else old(spent)
      ensures writes == (if won then old(writes) + [Inserted(key)] else old(writes)) && seen == old(seen)
    {
      won := key !in spent;
      if won {
        spent := spent + {key};
        writes := writes + [Inserted(key)];
      }
    }

    method Unspend(key: string)
      modifies this
      ensures spent == old(spent) - {key}
      ensures writes == old(writes) + [Deleted(key)] && seen == old(seen)
    {
      spent := spent - {key};
      writes := writes + [Deleted(key)];
    }

    /**
     * Whatever other workers do between two statements of this one. They may insert and delete
     * freely, except that they never delete a key this worker holds; Interleaving.ForeignStepKeeps
     * shows that workers running the redemption code keep that promise. Callers know the contract
     * only; the body is the case in which nobody else is scheduled. The rows then found are recorded.
     */
    method OthersRun(ghost held: set<string>)
      requires held <= spent
      modifies this`spent, this`seen
      ensures held <= spent && seen == old(seen) + [spent]
      ensures !shared ==> spent == old(spent)
    {
      seen := seen + [spent];
    }
  }
}

/** Redemption of PIC batches and x402 assertions (payment.py and x402.py in packages/pic-vouchers/src/sip_pic). */
module Payments {
  import opened Prelude
  import opened SpentSets

  // ---------------------------------------------------------------- documents

  /** A voucher as redemption reads it; `verified` is the outcome of verify_voucher on the document. */
  datatype Voucher = Voucher(
    id: Option<string>,          // None: voucher_id is missing or not a string
    verified: Check,
    unit: Option<string>,
    issuer: Option<string>,
    expires: Moment,
    denomination: Option<real>   // None: Decimal(...) raises
  )

  datatype Assertion = Assertion(
    payer: Option<string>,
    nonce: Option<string>,
    unit: Option<string>,
    amount: Option<real>,
    provider: Option<string>,
    request: Option<string>,
    signed: Check,               // outcome of verify_document
    issued: Moment
  )

  datatype Payment =
    | Pic(vouchers: Option<seq<Voucher>>)      // None: "vouchers" is not a list
    | X402(assertion: Option<Assertion>)       // None: "payment" is not an object
    | OtherScheme(name: string)

  datatype Terms = Terms(
    price: real,
    unit: string,
    issuers: seq<string>,
    now: real,
    provider: Option<string>,
    request: Option<string>
  )

  datatype Call = Call(payment: Payment, terms: Terms, commit: bool)

  datatype Reason =
    | NoReason | InvalidVoucher | WrongIssuer | Expired | DoubleSpend | Insufficient
    | InvalidPayment | UnsupportedScheme | UnknownIssuer | BadSignature | AmountMismatch
    | Crashed                    // an exception instead of a result

  datatype RedeemResult = RedeemResult(ok: bool, total: real, reason: Reason)

  function Refused(total: real, reason: Reason): RedeemResult {
    RedeemResult(false, total, reason)
  }

  function Accepted(total: real): RedeemResult {
    RedeemResult(true, total, NoReason)
  }

  // ---------------------------------------------------------------- local checks

  function ValidateVoucher(v: Voucher, terms: Terms): Option<Reason> {
    if v.verified.Raises? then Some(Crashed)
    else if v.verified.Fails? || v.unit != Some(terms.unit) then Some(InvalidVoucher)
    else if v.issuer.None? || v.issuer.value !in terms.issuers then Some(WrongIssuer)
    else
      match v.expires
      case NotATime => Some(Expired)
      case OutOfRange => Some(Crashed)
      case At(time) => if terms.now >= time then Some(Expired) else None
  }

  const MAX_AGE_SECONDS := 300.0

  function Nonce(a: Option<Assertion>): Option<string> {
    if a.Some? && a.value.nonce.Some? && a.value.nonce.value != "" then a.value.nonce else None
  }

  function VerifyAssertion(a: Assertion, terms: Terms): Check {
    if || a.unit != Some(terms.unit)
       || a.nonce.None? || a.nonce.value == ""
       || (terms.provider.Some? && a.provider != terms.provider)
       || (terms.request.Some? && a.request != terms.request)
       || a.amount.None? || a.amount.value < terms.price
    then Fails
    else if !a.signed.Passes? then a.signed
    else
      match a.issued
      case NotATime => Fails
      case OutOfRange => Raises
      case At(time) => if terms.now - time <= MAX_AGE_SECONDS then Passes else Fails
  }

  predicate AllHaveIds(vs: seq<Voucher>) {
    forall i :: 0 <= i < |vs| ==> vs[i].id.Some?
  }

  function Ids(vs: seq<Voucher>): (ids: seq<string>)
    requires AllHaveIds(vs)
    ensures |ids| == |vs| && forall i :: 0 <= i < |vs| ==> ids[i] == vs[i].id.value
  {
    seq(|vs|, i requires 0 <= i < |vs| => vs[i].id.value)
  }

  /** Sum of the denominations, one that does not parse counting as nothing. */
  function Face(vs: seq<Voucher>): real {
    if vs == [] then 0.0
    else Face(vs[..|vs| - 1]) + if vs[|vs| - 1].denomination.Some? then vs[|vs| - 1].denomination.value else 0.0
  }

  /** Every voucher counts once, for its denomination. */
  lemma {:induction false} FaceAdds(vs: seq<Voucher>, ws: seq<Voucher>)
    ensures Face(vs + ws) == Face(vs) + Face(ws)
    ensures forall v: Voucher :: v.denomination.Some? ==> Face([v]) == v.denomination.value
  {
    forall v: Voucher | v.denomination.Some? ensures Face([v]) == v.denomination.value {
      assert [v][..0] == [];
    }
    if ws == [] {
      assert vs + ws == vs;
    } else {
      FaceAdds(vs, ws[..|ws| - 1]);
      assert (vs + ws)[..|vs + ws| - 1] == vs + ws[..|ws| - 1];
    }
  }

  /** The keys a call reads and, when it commits, inserts. */
  function Keys(call: Call): seq<string> {
    match call.payment
    case Pic(Some(vs)) => if AllHaveIds(vs) then Ids(vs) else []
    case X402(a) => var nonce := Nonce(a); if nonce.Some? then ["x402:" + nonce.value] else []
    case _ => []
  }

  /** The value a call brings: face value of the batch, or the asserted amount. */
  function Value(call: Call): real {
    match call.payment
    case Pic(Some(vs)) => Face(vs)
    case X402(Some(a)) => if a.amount.Some? then a.amount.value else 0.0
    case _ => 0.0
  }

  // ---------------------------------------------------------------- what a good payment is

  /** A signed voucher of a listed issuer, in the unit asked for, not expired, and of a readable value. */
  predicate Good(v: Voucher, unit: string, issuers: seq<string>, now: real) {
    && v.verified.Passes? && v.unit == Some(unit)
    && v.issuer.Some? && v.issuer.value in issuers
    && v.expires.At? && now < v.expires.time
    && v.denomination.Some?
  }

  /** An assertion with a nonce, in the unit asked for, for this provider and request, and for no less than the price. */
  predicate Fits(a: Assertion, terms: Terms) {
    && a.nonce.Some? && a.nonce.value != "" && a.unit == Some(terms.unit)
    && (terms.provider.Some? ==> a.provider == terms.provider)
    && (terms.request.Some? ==> a.request == terms.request)
    && a.amount.Some? && terms.price <= a.amount.value
  }

  /** Such an assertion, signed by its payer and at most five minutes old. */
  predicate Honest(a: Assertion, terms: Terms) {
    Fits(a, terms) && a.signed.Passes? && a.issued.At? && terms.now <= a.issued.time + 300.0
  }

  /** What redemption demands of a payment, apart from its keys being unspent. */
  ghost predicate Acceptable(call: Call) {
    match call.payment
    case Pic(Some(vs)) =>
      && vs != [] && AllHaveIds(vs) && Distinct(Ids(vs)) && AllGood(vs, |vs|, call.terms)
      && Face(vs) >= call.terms.price
    case X402(Some(a)) => Honest(a, call.terms)
    case _ => false
  }

  ghost predicate AllGood(vs: seq<Voucher>, n: nat, terms: Terms)
    requires n <= |vs|
  {
    forall i :: 0 <= i < n ==> Good(vs[i], terms.unit, terms.issuers, terms.now)
  }

  /** What a reason says of the voucher it is given for. No two of them can be said of one voucher, and none of a good one. */
  ghost predicate Blames(reason: Reason, v: Voucher, terms: Terms) {
    var ours := v.verified.Passes? && v.unit == Some(terms.unit);
    var listed := ours && v.issuer.Some? && v.issuer.value in terms.issuers;
    match reason
    case InvalidVoucher =>
      || v.verified.Fails? || (v.verified.Passes? && v.unit != Some(terms.unit))
      || (listed && v.expires.At? && terms.now < v.expires.time && v.denomination.None?)
    case WrongIssuer => ours && !listed
    case Expired => listed && (v.expires.NotATime? || (v.expires.At? && v.expires.time <= terms.now))
    case Crashed => v.verified.Raises? || (listed && v.expires.OutOfRange?)
    case _ => false
  }

  /** Every refusal but a double spend says what is wrong: of a batch, with the first voucher that is not good. */
  ghost predicate Explains(call: Call, r: RedeemResult) {
    match call.payment
    case Pic(None) => r == Refused(0.0, InvalidVoucher)
    case Pic(Some(vs)) =>
      || (vs == [] && r == Refused(0.0, InvalidVoucher))
      || (vs != [] && r.reason == DoubleSpend)
      || (r == Refused(Face(vs), Insufficient) && Face(vs) < call.terms.price && AllGood(vs, |vs|, call.terms))
      || (r.total == 0.0 && exists i :: 0 <= i < |vs| && AllGood(vs, i, call.terms) && Blames(r.reason, vs[i], call.terms))
    case X402(a) =>
      && r.total == 0.0
      && (match r.reason
          case InvalidPayment => a.None? || a.value.nonce.None? || a.value.nonce.value == ""
          case Crashed =>
            && a.Some? && Fits(a.value, call.terms)
            && (a.value.signed.Raises? || (a.value.signed.Passes? && a.value.issued.OutOfRange?))
          case Insufficient =>
            && a.Some? && a.value.nonce.Some? && a.value.nonce.value != "" && !Honest(a.value, call.terms)
            && !(Fits(a.value, call.terms) && (a.value.signed.Raises? || (a.value.signed.Passes? && a.value.issued.OutOfRange?)))
          case DoubleSpend => a.Some? && Honest(a.value, call.terms)
          case _ => false)
    case OtherScheme(_) => r == Refused(0.0, UnsupportedScheme)
  }

  /** Validation asks for exactly that, and gives exactly these reasons. */
  lemma VoucherChecked(v: Voucher, terms: Terms)
    ensures ValidateVoucher(v, terms).None? && v.denomination.Some? <==> Good(v, terms.unit, terms.issuers, terms.now)
    ensures ValidateVoucher(v, terms).Some? ==> Blames(ValidateVoucher(v, terms).value, v, terms)
    ensures ValidateVoucher(v, terms).None? && v.denomination.None? ==> Blames(InvalidVoucher, v, terms)
  {
  }

  lemma {:induction false} AcceptableKeys(call: Call)
    requires Acceptable(call)
    ensures Keys(call) != [] && Distinct(Keys(call)) && Value(call) >= call.terms.price
  {
    match call.payment
    case Pic(Some(vs)) => assert |Ids(vs)| > 0;
    case X402(Some(a)) => assert |Keys(call)| == 1;
  }
}

/**
 * One redemption as a sequence of atomic steps. Each step touches the shared table at most once;
 * local work is folded into the neighbouring step.
 */
module Redemption {
  import opened Prelude
  import opened SpentSets
  import opened Payments

  datatype Pc =
    | Reading(i: nat)          // about to look up key i
    | Spending(i: nat)         // keys[..i] inserted, about to insert key i
    | Undoing(j: nat, k: nat)  // keys[..k] were inserted, keys[..j] deleted again, about to delete key j
    | Done(result: RedeemResult)

  datatype Run = Run(call: Call, pc: Pc)

  /** The checks made before the table is consulted at all. */
  function Start(call: Call): Run {
    match call.payment
    case Pic(vs) =>
      if vs.None? || vs.value == [] then Run(call, Done(Refused(0.0, InvalidVoucher)))
      else if !AllHaveIds(vs.value) || Repeats(Ids(vs.value)) then Run(call, Done(Refused(0.0, DoubleSpend)))
      else Resume(call, 0)
    case X402(a) =>
      if Nonce(a).None? then Run(call, Done(Refused(0.0, InvalidPayment)))
      else
        (match VerifyAssertion(a.value, call.terms)
         case Raises => Run(call, Done(Refused(0.0, Crashed)))
         case Fails => Run(call, Done(Refused(0.0, Insufficient)))
         case Passes => Run(call, Reading(0)))
    case OtherScheme(_) => Run(call, Done(Refused(0.0, UnsupportedScheme)))
  }

  predicate Repeats(ids: seq<string>) {
    exists i, j :: 0 <= i < j < |ids| && ids[i] == ids[j]
  }

  /** With the first i vouchers accepted: validate the next one, or settle the total. */
  function Resume(call: Call, i: nat): Run
    requires call.payment.Pic? && call.payment.vouchers.Some? && i <= |call.payment.vouchers.value|
  {
    var vs := call.payment.vouchers.value;
    if i < |vs| then
      var bad := ValidateVoucher(vs[i], call.terms);
      if bad.Some? then Run(call, Done(Refused(0.0, bad.value))) else Run(call, Reading(i))
    else if Face(vs) < call.terms.price then Run(call, Done(Refused(Face(vs), Insufficient)))
    else BeginSpending(call)
  }

  /** After key i was found unspent. */
  function AfterReading(call: Call, i: nat): Run
    requires i < |Keys(call)|
  {
    match call.payment
    case Pic(Some(vs)) =>
      if vs[i].denomination.None? then Run(call, Done(Refused(0.0, InvalidVoucher))) else Resume(call, i + 1)
    case _ => BeginSpending(call)
  }

  function BeginSpending(call: Call): Run {
    if call.commit then Run(call, Spending(0)) else Run(call, Done(Accepted(Value(call))))
  }

  /** What a lost race reports: the batch total, or nothing for an assertion. */
  function Collision(call: Call): RedeemResult {
    Refused(if call.payment.Pic? then Value(call) else 0.0, DoubleSpend)
  }

  function Step(run: Run, spent: set<string>): (Run, set<string>)
    requires Placed(run)
  {
    var keys := Keys(run.call);
    match run.pc
    case Reading(i) =>
      if keys[i] in spent then (run.(pc := Done(Refused(0.0, DoubleSpend))), spent)
      else (AfterReading(run.call, i), spent)
    case Spending(i) =>
      if keys[i] in spent then
        (run.(pc := if i == 0 then Done(Collision(run.call)) else Undoing(0, i)), spent)
      else
        (run.(pc := if i + 1 == |keys| then Done(Accepted(Value(run.call))) else Spending(i + 1)), spent + {keys[i]})
    case Undoing(j, k) =>
      (run.(pc := if j + 1 == k then Done(Collision(run.call)) else Undoing(j + 1, k)), spent - {keys[j]})
    case Done(_) => (run, spent)
  }

  /** The program counter points into the call's keys. */
  predicate Placed(run: Run) {
    match run.pc
    case Reading(i) => i < |Keys(run.call)|
    case Spending(i) => i < |Keys(run.call)|
    case Undoing(j, k) => j < k < |Keys(run.call)|
    case Done(_) => true
  }

  /** Vouchers before the program counter are good. */
  ghost predicate Checked(call: Call, i: nat) {
    match call.payment
    case Pic(Some(vs)) =>
      && AllHaveIds(vs) && Distinct(Ids(vs)) && i <= |vs|
      && AllGood(vs, i, call.terms)
    case X402(Some(a)) => Honest(a, call.terms)
    case _ => false
  }

  /** Everything the code knows at a program point. */
  ghost predicate WellFormed(run: Run): (w: bool)
    ensures w ==> Placed(run)
    ensures w && run.pc.Done? ==> if run.pc.result.ok then Acceptable(run.call) else Explains(run.call, run.pc.result)
  {
    && Placed(run)
    && match run.pc
       case Reading(i) =>
         && Checked(run.call, i)
         && (run.call.payment.Pic? ==>
             ValidateVoucher(run.call.payment.vouchers.value[i], run.call.terms).None?)
       case Spending(_) => run.call.commit && Acceptable(run.call)
       case Undoing(_, _) => run.call.commit && Acceptable(run.call)
       case Done(r) => if r.ok then Acceptable(run.call) && r == Accepted(Value(run.call)) else Explains(run.call, r)
  }

  lemma StartWellFormed(call: Call)
    ensures WellFormed(Start(call))
  {
    hide Resume, VerifyAssertion, Good, Blames, Fits;
    match call.payment
    case Pic(Some(vs)) =>
      if vs != [] && AllHaveIds(vs) && !Repeats(Ids(vs)) {
        assert Distinct(Ids(vs));
        ResumeWellFormed(call, 0);
      }
    case X402(Some(a)) => AssertionChecked(a, call.terms);
    case _ =>
  }

  lemma AssertionChecked(a: Assertion, terms: Terms)
    ensures var verified := VerifyAssertion(a, terms);
            var breaks := Fits(a, terms) && (a.signed.Raises? || (a.signed.Passes? && a.issued.OutOfRange?));
            (verified.Passes? <==> Honest(a, terms)) && (verified.Raises? <==> breaks) && (breaks ==> !Honest(a, terms))
  {
  }

  /** The first faulty voucher explains a refusal. */
  lemma FaultExplains(call: Call, i: nat, reason: Reason)
    requires call.payment.Pic? && call.payment.vouchers.Some? && i < |call.payment.vouchers.value|
    requires AllGood(call.payment.vouchers.value, i, call.terms) && Blames(reason, call.payment.vouchers.value[i], call.terms)
    ensures Explains(call, Refused(0.0, reason))
  {
    hide Good, Blames;
  }

  lemma ResumeWellFormed(call: Call, i: nat)
    requires call.payment.Pic? && call.payment.vouchers.Some? && call.payment.vouchers.value != []
    requires i <= |call.payment.vouchers.value|
    requires AllHaveIds(call.payment.vouchers.value) && Distinct(Ids(call.payment.vouchers.value))
    requires AllGood(call.payment.vouchers.value, i, call.terms)
    ensures WellFormed(Resume(call, i))
  {
    hide Good, Blames, Explains, ValidateVoucher;
    var vs := call.payment.vouchers.value;
    if i < |vs| {
      VoucherChecked(vs[i], call.terms);
      var bad := ValidateVoucher(vs[i], call.terms);
      if bad.Some? {
        FaultExplains(call, i, bad.value);
      }
    } else {
      SettledWellFormed(call);
    }
  }

  lemma SettledWellFormed(call: Call)
    requires call.payment.Pic? && call.payment.vouchers.Some? && call.payment.vouchers.value != []
    requires AllHaveIds(call.payment.vouchers.value) && Distinct(Ids(call.payment.vouchers.value))
    requires AllGood(call.payment.vouchers.value, |call.payment.vouchers.value|, call.terms)
    ensures WellFormed(Resume(call, |call.payment.vouchers.value|))
  {
    hide Good, Blames, Face;
    assert |Ids(call.payment.vouchers.value)| > 0;
  }

  lemma StepWellFormed(run: Run, spent: set<string>)
    requires WellFormed(run)
    ensures WellFormed(Step(run, spent).0) && Step(run, spent).0.call == run.call
  {
    match run.pc
    case Reading(i) => AfterReadingWellFormed(run.call, i);
    case Spending(_) => AcceptableKeys(run.call);
    case _ =>
  }

  lemma AfterReadingWellFormed(call: Call, i: nat)
    requires WellFormed(Run(call, Reading(i)))
    ensures WellFormed(AfterReading(call, i)) && AfterReading(call, i).call == call
  {
    hide Good, Blames, ValidateVoucher, Resume, Fits, Explains;
    match call.payment
    case Pic(Some(vs)) =>
      VoucherChecked(vs[i], call.terms);
      ResumeCall(call, i + 1);
      if vs[i].denomination.None? {
        FaultExplains(call, i, InvalidVoucher);
      } else {
        ResumeWellFormed(call, i + 1);
      }
    case X402(Some(a)) => assert Acceptable(call);
  }

  lemma ResumeCall(call: Call, i: nat)
    requires call.payment.Pic? && call.payment.vouchers.Some? && i <= |call.payment.vouchers.value|
    ensures Resume(call, i).call == call
  {
  }

  /** Steps still to come, at most. */
  function Remaining(run: Run): nat
    requires Placed(run)
  {
    var n := |Keys(run.call)|;
    match run.pc
    case Reading(i) => 2 * n + 2 + (n - i)
    case Spending(i) => n + 1 + (n - i)
    case Undoing(j, k) => k - j
    case Done(_) => 0
  }

  lemma StepProgress(run: Run, spent: set<string>)
    requires Placed(run) && !run.pc.Done?
    ensures Placed(Step(run, spent).0) && Step(run, spent).0.call == run.call
    ensures Remaining(Step(run, spent).0) < Remaining(run)
  {
  }

  /** The run carried to its end with nobody else touching the table. */
  function Finish(run: Run, spent: set<string>): (RedeemResult, set<string>)
    requires Placed(run)
    decreases Remaining(run)
  {
    if run.pc.Done? then (run.pc.result, spent)
    else
      StepProgress(run, spent);
      var (next, rows) := Step(run, spent);
      Finish(next, rows)
  }

  /** Sequential redemption: the meaning of redeem_payment on a private table. */
  function Redeem(call: Call, spent: set<string>): (RedeemResult, set<string>) {
    StartWellFormed(call);
    Finish(Start(call), spent)
  }

  // ---------------------------------------------------------------- steps among others

  /** Where a run gets by taking one step on each of these tables. */
  function Replay(run: Run, seen: seq<set<string>>): Run {
    if seen == [] then run
    else
      var before := Replay(run, seen[..|seen| - 1]);
      if Placed(before) then Step(before, seen[|seen| - 1]).0 else before
  }

  /** What a step writes. */
  function Effect(run: Run, spent: set<string>): seq<Write>
    requires Placed(run)
  {
    var keys := Keys(run.call);
    match run.pc
    case Spending(i) => if keys[i] in spent then [] else [Inserted(keys[i])]
    case Undoing(j, _) => [Deleted(keys[j])]
    case _ => []
  }

  function Effects(run: Run, seen: seq<set<string>>): seq<Write> {
    if seen == [] then []
    else
      var before := Replay(run, seen[..|seen| - 1]);
      Effects(run, seen[..|seen| - 1]) + if Placed(before) then Effect(before, seen[|seen| - 1]) else []
  }

  function Written(spent: set<string>, writes: seq<Write>): set<string> {
    if writes == [] then spent
    else
      match writes[|writes| - 1]
      case Inserted(key) => Written(spent, writes[..|writes| - 1]) + {key}
      case Deleted(key) => Written(spent, writes[..|writes| - 1]) - {key}
  }

  /** A step changes the table by exactly its effect. */
  lemma EffectExact(run: Run, spent: set<string>)
    requires Placed(run)
    ensures Step(run, spent).1 == Written(spent, Effect(run, spent))
  {
    var w := Effect(run, spent);
    assert w != [] ==> w[..|w| - 1] == [];
  }

  /** The code stands where the step machine does on the tables seen since `seen0`, with the same writes. */
  ghost predicate Reached(
    call: Call, run: Run, seen0: seq<set<string>>, seen: seq<set<string>>, writes0: seq<Write>, writes: seq<Write>)
  {
    && seen0 <= seen
    && Replay(Start(call), seen[|seen0|..]) == run
    && writes == writes0 + Effects(Start(call), seen[|seen0|..])
  }

  lemma StartReached(call: Call, seen: seq<set<string>>, writes: seq<Write>)
    ensures Reached(call, Start(call), seen, seen, writes, writes)
  {
    assert seen[|seen|..] == [];
  }

  lemma StepReached(
    call: Call, run: Run, seen0: seq<set<string>>, seen: seq<set<string>>, writes0: seq<Write>, writes: seq<Write>,
    spent: set<string>)
    requires Reached(call, run, seen0, seen, writes0, writes) && Placed(run)
    ensures Reached(call, Step(run, spent).0, seen0, seen + [spent], writes0, writes + Effect(run, spent))
  {
    hide Step, Effect, Start, Placed;
    var mine := seen[|seen0|..];
    assert (seen + [spent])[|seen0|..] == mine + [spent];
    assert (mine + [spent])[..|mine|] == mine;
  }

  // ---------------------------------------------------------------- all or nothing

  lemma SpendOne(call: Call, i: nat, spent: set<string>)
    requires i < |Keys(call)| && Keys(call)[i] !in spent
    ensures Finish(Run(call, Spending(i)), spent)
         == if i + 1 == |Keys(call)| then (Accepted(Value(call)), spent + {Keys(call)[i]})
            else Finish(Run(call, Spending(i + 1)), spent + {Keys(call)[i]})
  {
    hide Keys, Value;
    StepProgress(Run(call, Spending(i)), spent);
  }

  /** From the spend loop, with the remaining keys free, the whole batch goes through. */
  lemma {:induction false} FinishSpending(call: Call, i: nat, spent: set<string>)
    requires i < |Keys(call)| && Distinct(Keys(call))
    requires forall j :: i <= j < |Keys(call)| ==> Keys(call)[j] !in spent
    ensures Finish(Run(call, Spending(i)), spent)
         == (Accepted(Value(call)), spent + Elements(Keys(call)[i..]))
    decreases |Keys(call)| - i
  {
    hide Keys, Value, Finish;
    var keys := Keys(call);
    SpendOne(call, i, spent);
    assert keys[i..] == [keys[i]] + keys[i + 1..];
    var rows := spent + {keys[i]};
    if i + 1 < |keys| {
      FinishSpending(call, i + 1, rows);
      assert rows + Elements(keys[i + 1..]) == spent + Elements(keys[i..]);
    } else {
      assert Elements(keys[i..]) == {keys[i]};
    }
  }

  lemma {:induction false} FinishReading(call: Call, i: nat, spent: set<string>)
    requires WellFormed(Run(call, Reading(i)))
    requires forall j :: 0 <= j < i ==> Keys(call)[j] !in spent
    ensures Settled(call, spent, Finish(Run(call, Reading(i)), spent))
    decreases |Keys(call)| - i
  {
    var keys := Keys(call);
    if keys[i] in spent {
      assert keys[i] in Elements(keys);
    } else {
      AfterReadingWellFormed(call, i);
      var next := AfterReading(call, i);
      if next.pc.Reading? {
        FinishReading(call, i + 1, spent);
      } else if next.pc.Spending? {
        AcceptableKeys(call);
        FinishSpending(call, 0, spent);
        assert keys[0..] == keys;
      } else if next.pc.result.ok {
        assert Elements(keys) !! spent;
      }
    }
  }

  /** The outcome expected of a call that runs alone. */
  ghost predicate Settled(call: Call, spent: set<string>, outcome: (RedeemResult, set<string>)) {
    && (outcome.0.ok <==> Acceptable(call) && Elements(Keys(call)) !! spent)
    && (if outcome.0.ok then outcome.0 == Accepted(Value(call)) else Explains(call, outcome.0))
    && (Acceptable(call) && !outcome.0.ok ==> outcome.0.reason == DoubleSpend)
    && outcome.1 == (if outcome.0.ok && call.commit then spent + Elements(Keys(call)) else spent)
  }

  /** Alone, redemption succeeds exactly on an acceptable payment with unspent keys, and is all or nothing. */
  lemma RedeemAllOrNothing(call: Call, spent: set<string>)
    ensures Settled(call, spent, Redeem(call, spent))
  {
    StartWellFormed(call);
    if Acceptable(call) {
      AcceptableStarts(call);
    }
    if Start(call).pc.Reading? {
      FinishReading(call, 0, spent);
    }
  }

  lemma AcceptableStarts(call: Call)
    requires Acceptable(call)
    ensures Start(call).pc.Reading?
  {
    if call.payment.Pic? {
      var vs := call.payment.vouchers.value;
      assert !Repeats(Ids(vs));
      assert ValidateVoucher(vs[0], call.terms).None?;
    }
  }

  // ---------------------------------------------------------------- the code

  /** A failed commit deleted exactly the rows it had inserted, in the order of insertion. */
  ghost predicate RolledBack(before: seq<Write>, after: seq<Write>, keys: seq<string>) {
    exists k :: 0 <= k <= |keys| && after == before + Inserts(keys[..k]) + Deletes(keys[..k])
  }

  /** What redemption promises while other workers use the same table. */
  ghost predicate Redeemed(call: Call, r: RedeemResult, before: seq<Write>, after: seq<Write>, spent: set<string>) {
    && (r.ok ==> Acceptable(call) && r == Accepted(Value(call)))
    && (!r.ok ==> Explains(call, r) && (r.reason == DoubleSpend || !Acceptable(call)))
    && (r.ok && call.commit ==> after == before + Inserts(Keys(call)) && Elements(Keys(call)) <= spent)
    && (!(r.ok && call.commit) ==> RolledBack(before, after, Keys(call)))
    && (!call.commit || r.reason == Crashed ==> after == before)
  }

  method RedeemPic(call: Call, store: SpentSet) returns (r: RedeemResult)
    requires call.payment.Pic?
    modifies store
    ensures Redeemed(call, r, old(store.writes), store.writes, store.spent)
    ensures Reached(call, Run(call, Done(r)), old(store.seen), store.seen, old(store.writes), store.writes)
    ensures !store.shared ==> (r, store.spent) == Redeem(call, old(store.spent))
  {
    hide Reached;
    StartReached(call, store.seen, store.writes);
    NothingWritten(store.writes, Keys(call));
    if call.payment.vouchers.None? || call.payment.vouchers.value == [] {
      return Refused(0.0, InvalidVoucher);
    }
    var vs := call.payment.vouchers.value;
    var repeated := HasRepeatedIds(vs);
    if repeated {
      return Refused(0.0, DoubleSpend);
    }
    assert Start(call) == Resume(call, 0);
    var refusal, total := CheckVouchers(call, vs, store);
    if refusal.Some? {
      return refusal.value;
    }
    if total < call.terms.price {
      return Refused(total, Insufficient);
    }
    if !call.commit {
      return Accepted(total);
    }
    assert Distinct(Ids(vs));
    r := SpendAll(call, total, store, old(store.seen), old(store.writes));
  }

  /** The validation loop: every voucher is checked, and looked up, before any is consumed. */
  method CheckVouchers(call: Call, vs: seq<Voucher>, store: SpentSet)
      returns (refusal: Option<RedeemResult>, total: real)
    requires call.payment == Pic(Some(vs)) && AllHaveIds(vs) && vs != []
    modifies store`spent, store`seen
    ensures Start(call) == Resume(call, 0) ==>
              Reached(call, if refusal.Some? then Run(call, Done(refusal.value)) else Resume(call, |vs|),
                      old(store.seen), store.seen, store.writes, store.writes)
    ensures refusal.None? ==> total == Face(vs) && AllGood(vs, |vs|, call.terms)
    ensures refusal.Some? ==>
              && !refusal.value.ok && refusal.value.total == 0.0
              && (refusal.value.reason == DoubleSpend
                  || exists i :: 0 <= i < |vs| && AllGood(vs, i, call.terms) && Blames(refusal.value.reason, vs[i], call.terms))
    ensures !store.shared ==> store.spent == old(store.spent) && AloneAt(call, 0, store.spent, vs, refusal)
  {
    hide Finish, Resume, Placed, ValidateVoucher, Keys, Reached, Start, Good, Blames;
    total := 0.0;
    StartReached(call, store.seen, store.writes);
    ResumePlaced(call, 0);
    ResumePlaced(call, |vs|);
    for i := 0 to |vs|
      invariant !store.shared ==> store.spent == old(store.spent)
      invariant total == Face(vs[..i])
      invariant AllGood(vs, i, call.terms)
      invariant Placed(Resume(call, 0)) && Placed(Resume(call, i))
      invariant !store.shared ==> Finish(Resume(call, 0), store.spent) == Finish(Resume(call, i), store.spent)
      invariant Start(call) == Resume(call, 0) ==>
                  Reached(call, Resume(call, i), old(store.seen), store.seen, store.writes, store.writes)
    {
      ResumePlaced(call, i + 1);
      assert vs[..i + 1][..i] == vs[..i];
      CheckOne(call, i, store.spent);
      ResumeOne(call, i);
      VoucherChecked(vs[i], call.terms);
      var reason := ValidateVoucher(vs[i], call.terms);
      if reason.Some? {
        return Some(Refused(0.0, reason.value)), total;
      }
      ghost var seen := store.seen;
      store.OthersRun({});
      if Start(call) == Resume(call, 0) {
        StepReached(call, Run(call, Reading(i)), old(store.seen), seen, store.writes, store.writes, store.spent);
        ReadStep(call, i, store.spent);
      }
      var known := store.IsSpent(vs[i].id.value);
      if known {
        return Some(Refused(0.0, DoubleSpend)), total;
      }
      if vs[i].denomination.None? {
        return Some(Refused(0.0, InvalidVoucher)), total;
      }
      total := total + vs[i].denomination.value;
    }
    assert vs[..|vs|] == vs;
    return None, total;
  }

  /** Before its i-th lookup a batch is refused for a bad voucher, or stands at the lookup. */
  lemma ResumeOne(call: Call, i: nat)
    requires call.payment.Pic? && call.payment.vouchers.Some? && i < |call.payment.vouchers.value|
    requires AllHaveIds(call.payment.vouchers.value)
    ensures var reason := ValidateVoucher(call.payment.vouchers.value[i], call.terms);
            Resume(call, i) == Run(call, if reason.Some? then Done(Refused(0.0, reason.value)) else Reading(i))
    ensures Placed(Run(call, Reading(i)))
  {
  }

  /** The lookup itself. */
  lemma ReadStep(call: Call, i: nat, spent: set<string>)
    requires call.payment.Pic? && call.payment.vouchers.Some? && i < |call.payment.vouchers.value|
    requires AllHaveIds(call.payment.vouchers.value) && Placed(Run(call, Reading(i)))
    ensures var v := call.payment.vouchers.value[i];
            Step(Run(call, Reading(i)), spent).0
            == if v.id.value in spent then Run(call, Done(Refused(0.0, DoubleSpend)))
               else if v.denomination.None? then Run(call, Done(Refused(0.0, InvalidVoucher)))
               else Resume(call, i + 1)
    ensures Effect(Run(call, Reading(i)), spent) == []
  {
    assert Keys(call)[i] == call.payment.vouchers.value[i].id.value;
  }

  lemma ResumePlaced(call: Call, i: nat)
    requires call.payment.Pic? && call.payment.vouchers.Some? && i <= |call.payment.vouchers.value|
    requires AllHaveIds(call.payment.vouchers.value) && call.payment.vouchers.value != []
    ensures Placed(Resume(call, i))
  {
    assert |Ids(call.payment.vouchers.value)| > 0;
  }

  /** What becomes of a batch at its i-th voucher, alone on the table. */
  lemma CheckOne(call: Call, i: nat, spent: set<string>)
    requires call.payment.Pic? && call.payment.vouchers.Some? && i < |call.payment.vouchers.value|
    requires AllHaveIds(call.payment.vouchers.value)
    requires Placed(Resume(call, i)) && Placed(Resume(call, i + 1))
    ensures var v := call.payment.vouchers.value[i];
            var reason := ValidateVoucher(v, call.terms);
            Finish(Resume(call, i), spent)
            == if reason.Some? then (Refused(0.0, reason.value), spent)
               else if v.id.value in spent then (Refused(0.0, DoubleSpend), spent)
               else if v.denomination.None? then (Refused(0.0, InvalidVoucher), spent)
               else Finish(Resume(call, i + 1), spent)
  {
    var v := call.payment.vouchers.value[i];
    assert Keys(call)[i] == v.id.value;
    if ValidateVoucher(v, call.terms).None? {
      ReadOne(call, i, spent);
    }
  }

  /** Alone, validation either refuses as the step machine does or hands over to it after the last voucher. */
  ghost predicate AloneAt(
    call: Call, i: nat, spent: set<string>, vs: seq<Voucher>, refusal: Option<RedeemResult>)
    requires call.payment == Pic(Some(vs))
  {
    && i <= |vs| && Placed(Resume(call, i)) && Placed(Resume(call, |vs|))
    && Finish(Resume(call, i), spent)
       == if refusal.Some? then (refusal.value, spent) else Finish(Resume(call, |vs|), spent)
  }

  /** The duplicate check over the ids of one batch. */
  method HasRepeatedIds(vs: seq<Voucher>) returns (repeated: bool)
    ensures repeated <==> !AllHaveIds(vs) || Repeats(Ids(vs))
  {
    var seen: set<string> := {};
    for i := 0 to |vs|
      invariant forall j :: 0 <= j < i ==> vs[j].id.Some? && vs[j].id.value in seen
      invariant forall id :: id in seen ==> exists j :: 0 <= j < i && vs[j].id == Some(id)
      invariant forall j, k :: 0 <= j < k < i ==> vs[j].id != vs[k].id
    {
      if vs[i].id.None? {
        return true;
      }
      if vs[i].id.value in seen {
        if AllHaveIds(vs) {
          var j :| 0 <= j < i && vs[j].id == vs[i].id;
          assert Ids(vs)[j] == Ids(vs)[i];
        }
        return true;
      }
      seen := seen + {vs[i].id.value};
    }
    return false;
  }

  /** The spend loop: insert every id, or undo the ids already inserted on the first collision. */
  method SpendAll(call: Call, total: real, store: SpentSet, ghost seen0: seq<set<string>>, ghost writes0: seq<Write>)
      returns (r: RedeemResult)
    requires call.payment.Pic? && call.commit && Acceptable(call) && total == Value(call)
    requires Reached(call, Run(call, Spending(0)), seen0, store.seen, writes0, store.writes)
    modifies store
    ensures Reached(call, Run(call, Done(r)), seen0, store.seen, writes0, store.writes)
    ensures r == Accepted(Value(call)) || r == Collision(call)
    ensures r.ok ==> store.writes == old(store.writes) + Inserts(Keys(call)) && Elements(Keys(call)) <= store.spent
    ensures !r.ok ==> RolledBack(old(store.writes), store.writes, Keys(call))
    ensures !store.shared ==>
              AtSpending(call, 0) && (r, store.spent) == Finish(Run(call, Spending(0)), old(store.spent))
  {
    hide Reached, Acceptable, Face;
    AcceptableKeys(call);
    var vs := call.payment.vouchers.value;
    var done: seq<string> := [];
    ghost var keys := Keys(call);
    ghost var alone := Finish(Run(call, Spending(0)), store.spent);
    for i := 0 to |vs|
      invariant done == keys[..i] && Elements(done) <= store.spent
      invariant store.writes == old(store.writes) + Inserts(done)
      invariant !store.shared ==>
                  alone == if i < |vs| then Finish(Run(call, Spending(i)), store.spent)
                           else (Accepted(Value(call)), store.spent)
      invariant Reached(call, Spent(call, i), seen0, store.seen, writes0, store.writes)
    {
      ghost var seen := store.seen;
      store.OthersRun(Elements(done));
      StepReached(call, Run(call, Spending(i)), seen0, seen, writes0, store.writes, store.spent);
      var id := vs[i].id.value;
      assert id == keys[i] && keys[..i + 1] == done + [id];
      var won := store.Spend(id);
      if won {
        done := done + [id];
      } else {
        assert store.writes + [] == store.writes;
        Undo(call, done, store, seen0, writes0);
        return Refused(total, DoubleSpend);
      }
    }
    assert done == keys;
    return Accepted(total);
  }

  /** The run with the first i keys inserted. */
  function Spent(call: Call, i: nat): Run {
    Run(call, if i < |Keys(call)| then Spending(i) else Done(Accepted(Value(call))))
  }

  /** The run with j of k insertions undone. */
  function Unspent(call: Call, j: nat, k: nat): Run {
    Run(call, if j < k then Undoing(j, k) else Done(Collision(call)))
  }

  predicate AtSpending(call: Call, i: nat) {
    i < |Keys(call)|
  }

  lemma ReadOne(call: Call, i: nat, spent: set<string>)
    requires i < |Keys(call)|
    ensures Keys(call)[i] in spent ==> Finish(Run(call, Reading(i)), spent) == (Refused(0.0, DoubleSpend), spent)
    ensures Keys(call)[i] !in spent ==>
              && Placed(AfterReading(call, i))
              && Finish(Run(call, Reading(i)), spent) == Finish(AfterReading(call, i), spent)
  {
    StepProgress(Run(call, Reading(i)), spent);
  }

  lemma UndoOne(call: Call, j: nat, k: nat, spent: set<string>)
    requires j < k < |Keys(call)|
    ensures Undone(call, j, k, spent) == Undone(call, j + 1, k, spent - {Keys(call)[j]})
  {
    var rows := spent - {Keys(call)[j]};
    StepProgress(Run(call, Undoing(j, k)), spent);
    if j + 1 == k {
      assert Finish(Run(call, Done(Collision(call))), rows) == (Collision(call), rows);
    }
  }

  /** Where a rollback that runs alone ends up from its j-th deletion. */
  function Undone(call: Call, j: nat, k: nat, spent: set<string>): (RedeemResult, set<string>)
    requires j <= k < |Keys(call)|
  {
    if j < k then Finish(Run(call, Undoing(j, k)), spent) else (Collision(call), spent)
  }

  /** Rollback of the inserted ids. */
  method Undo(call: Call, done: seq<string>, store: SpentSet, ghost seen0: seq<set<string>>, ghost writes0: seq<Write>)
    requires call.payment.Pic? && |done| < |Keys(call)| && done == Keys(call)[..|done|]
    requires Distinct(Keys(call)) && Elements(done) <= store.spent
    requires Reached(call, Unspent(call, 0, |done|), seen0, store.seen, writes0, store.writes)
    modifies store
    ensures Reached(call, Run(call, Done(Collision(call))), seen0, store.seen, writes0, store.writes)
    ensures store.writes == old(store.writes) + Deletes(done)
    ensures !store.shared && done != [] ==>
              Finish(Run(call, Undoing(0, |done|)), old(store.spent)) == (Collision(call), store.spent)
    ensures !store.shared && done == [] ==> store.spent == old(store.spent)
  {
    hide Finish, Keys, Reached;
    ghost var k := |done|;
    for j := 0 to |done|
      invariant store.writes == old(store.writes) + Deletes(done[..j])
      invariant Elements(done[j..]) <= store.spent
      invariant !store.shared && k == 0 ==> store.spent == old(store.spent)
      invariant !store.shared && k > 0 ==>
                  Finish(Run(call, Undoing(0, k)), old(store.spent)) == Undone(call, j, k, store.spent)
      invariant Reached(call, Unspent(call, j, k), seen0, store.seen, writes0, store.writes)
    {
      assert done[j..] == [done[j]] + done[j + 1..];
      assert done[j] == Keys(call)[j];
      ghost var seen := store.seen;
      store.OthersRun(Elements(done[j..]));
      StepReached(call, Run(call, Undoing(j, k)), seen0, seen, writes0, store.writes, store.spent);
      UndoOne(call, j, k, store.spent);
      store.Unspend(done[j]);
      assert done[..j + 1] == done[..j] + [done[j]];
      assert forall i :: j < i < k ==> done[i] == Keys(call)[i] != Keys(call)[j];
    }
    assert done[..|done|] == done;
  }

  /** redeem_payment: dispatch on the scheme. */
  method RedeemPayment(call: Call, store: SpentSet) returns (r: RedeemResult)
    modifies store
    ensures Redeemed(call, r, old(store.writes), store.writes, store.spent)
    ensures Reached(call, Run(call, Done(r)), old(store.seen), store.seen, old(store.writes), store.writes)
    ensures !store.shared ==> (r, store.spent) == Redeem(call, old(store.spent))
  {
    hide Reached;
    StartReached(call, store.seen, store.writes);
    NothingWritten(store.writes, Keys(call));
    if call.payment.Pic? {
      r := RedeemPic(call, store);
      return;
    }
    if call.payment.X402? {
      var nonce := Nonce(call.payment.assertion);
      if nonce.None? {
        return Refused(0.0, InvalidPayment);
      }
      var assertion := call.payment.assertion.value;
      var verified := VerifyAssertion(assertion, call.terms);
      if verified.Raises? {
        return Refused(0.0, Crashed);
      }
      if verified.Fails? {
        return Refused(0.0, Insufficient);
      }
      var key := "x402:" + nonce.value;
      assert Keys(call) == [key] && Start(call) == Run(call, Reading(0));
      ghost var seen := store.seen;
      store.OthersRun({});
      StepReached(call, Run(call, Reading(0)), old(store.seen), seen, store.writes, store.writes, store.spent);
      var known := store.IsSpent(key);
      ReadOne(call, 0, store.spent);
      if known {
        return Refused(0.0, DoubleSpend);
      }
      if call.commit {
        seen := store.seen;
        store.OthersRun({});
        StepReached(call, Run(call, Spending(0)), old(store.seen), seen, store.writes, store.writes, store.spent);
        var won := store.Spend(key);
        if !won {
          return Refused(0.0, DoubleSpend);
        }
      }
      return Accepted(assertion.amount.value);
    }
    return Refused(0.0, UnsupportedScheme);
  }

  lemma NothingWritten(writes: seq<Write>, keys: seq<string>)
    ensures RolledBack(writes, writes, keys)
  {
    assert writes == writes + Inserts(keys[..0]) + Deletes(keys[..0]);
  }
}
