/** Any number of redemptions, by any number of workers, interleaved over one spent set. */
module Interleaving {
  import opened Prelude
  import opened SpentSets
  import opened Payments
  import opened Redemption

  /** `owner` is history: for each row inserted since the start, the run that inserted it. */
  datatype System = System(spent: set<string>, runs: seq<Run>, owner: map<string, nat>)

  datatype Action =
    | Begin(call: Call)      // some worker enters redeem_payment
    | Advance(i: nat)        // run i takes its next atomic step

  function Initial(rows: set<string>): System {
    System(rows, [], map[])
  }

  function Apply(s: System, a: Action): System {
    match a
    case Begin(call) => s.(runs := s.runs + [Start(call)])
    case Advance(i) =>
      if i < |s.runs| && Placed(s.runs[i]) then
        var (run, rows) := Step(s.runs[i], s.spent);
        System(rows, s.runs[i := run], Claim(s.owner, s.spent, rows, i))
      else s
  }

  /** Rows that appeared belong to run i; rows that vanished belong to nobody. */
  function Claim(owner: map<string, nat>, before: set<string>, after: set<string>, i: nat): map<string, nat> {
    map k | k in after && (k in before ==> k in owner) :: if k in before then owner[k] else i
  }

  function Execute(rows: set<string>, actions: seq<Action>): System {
    if actions == [] then Initial(rows)
    else Apply(Execute(rows, actions[..|actions| - 1]), actions[|actions| - 1])
  }

  predicate Committed(run: Run) {
    run.pc.Done? && run.pc.result.ok && run.call.commit
  }

  /** The rows a run has inserted and not deleted again. */
  function Held(run: Run): set<string>
    requires Placed(run)
  {
    var keys := Keys(run.call);
    match run.pc
    case Reading(_) => {}
    case Spending(i) => Elements(keys[..i])
    case Undoing(j, k) => Elements(keys[j..k])
    case Done(r) => if r.ok && run.call.commit then Elements(keys) else {}
  }

  // ---------------------------------------------------------------- the ownership invariant

  ghost predicate Inv(s: System, rows: set<string>) {
    && (forall i :: 0 <= i < |s.runs| ==> WellFormed(s.runs[i]))
    && s.spent == rows + s.owner.Keys
    && (forall k :: k in s.owner ==> k !in rows && s.owner[k] < |s.runs| && k in Held(s.runs[s.owner[k]]))
    && (forall i, k :: 0 <= i < |s.runs| && k in Held(s.runs[i]) ==> k in s.owner && s.owner[k] == i)
  }

  /** The table changed exactly as what the run holds changed, and no row was overwritten. */
  ghost predicate Accounts(run: Run, spent: set<string>, next: Run, rows: set<string>)
    requires Placed(run) && Placed(next)
  {
    && (forall k :: k in rows <==>
          (k in spent && (k in Held(run) ==> k in Held(next))) || (k in Held(next) && k !in Held(run)))
    && (forall k :: k in Held(next) && k !in Held(run) ==> k !in spent)
    && (forall k :: k in spent && k !in rows ==> run.pc.Undoing?)
  }

  lemma SpendingAccounts(run: Run, spent: set<string>)
    requires WellFormed(run) && run.pc.Spending? && Held(run) <= spent
    ensures var (next, rows) := Step(run, spent); Placed(next) && Accounts(run, spent, next, rows)
  {
    AcceptableKeys(run.call);
    var keys, i := Keys(run.call), run.pc.i;
    ElementsNext(keys, i);
    hide WellFormed, Keys, Value, Elements, Acceptable;
    assert i + 1 == |keys| ==> keys[..i + 1] == keys;
    assert keys[0..i] == keys[..i];
  }

  lemma ElementsNext(keys: seq<string>, i: nat)
    requires i < |keys|
    ensures Elements(keys[..i + 1]) == Elements(keys[..i]) + {keys[i]}
    ensures i == 0 ==> Elements(keys[..i]) == {}
  {
    assert keys[..i + 1] == keys[..i] + [keys[i]];
  }

  lemma UndoingAccounts(run: Run, spent: set<string>)
    requires WellFormed(run) && run.pc.Undoing? && Held(run) <= spent
    ensures var (next, rows) := Step(run, spent); Placed(next) && Accounts(run, spent, next, rows)
  {
    AcceptableKeys(run.call);
    hide WellFormed, Keys, Value;
    var keys, j, k := Keys(run.call), run.pc.j, run.pc.k;
    assert keys[j..k] == [keys[j]] + keys[j + 1..k];
    assert keys[j] !in Elements(keys[j + 1..k]);
  }

  /** One step changes the table exactly as it changes what the run holds, and never overwrites a row. */
  lemma StepHeld(run: Run, spent: set<string>)
    requires WellFormed(run) && Held(run) <= spent
    ensures var (next, rows) := Step(run, spent); WellFormed(next) && Accounts(run, spent, next, rows)
  {
    StepWellFormed(run, spent);
    match run.pc
    case Reading(i) =>
      AfterReadingHolds(run.call, i);
      hide WellFormed, AfterReading;
    case Spending(i) => SpendingAccounts(run, spent);
    case Undoing(j, k) => UndoingAccounts(run, spent);
    case Done(_) =>
  }

  /** Leaving the read loop, a run holds nothing yet. */
  lemma AfterReadingHolds(call: Call, i: nat)
    requires WellFormed(Run(call, Reading(i)))
    ensures Placed(AfterReading(call, i)) && Held(AfterReading(call, i)) == {}
  {
    AfterReadingWellFormed(call, i);
  }

  lemma StartHolds(call: Call)
    ensures WellFormed(Start(call)) && Held(Start(call)) == {}
  {
    StartWellFormed(call);
  }

  lemma ApplyInv(s: System, a: Action, rows: set<string>)
    requires Inv(s, rows)
    ensures Inv(Apply(s, a), rows)
  {
    hide WellFormed, Placed, Held, Step, Start;
    match a
    case Begin(call) => StartHolds(call);
    case Advance(i) =>
      if i < |s.runs| {
        assert Held(s.runs[i]) <= s.spent;
        StepHeld(s.runs[i], s.spent);
      }
  }

  lemma {:induction false} ExecuteInv(rows: set<string>, actions: seq<Action>)
    ensures Inv(Execute(rows, actions), rows)
  {
    if actions != [] {
      ExecuteInv(rows, actions[..|actions| - 1]);
      ApplyInv(Execute(rows, actions[..|actions| - 1]), actions[|actions| - 1], rows);
    }
  }

  // ---------------------------------------------------------------- safety

  lemma CommittedHolds(run: Run)
    requires Placed(run) && Committed(run)
    ensures Held(run) == Elements(Keys(run.call))
  {
  }

  /** What a run holds is in the table, was not there at the start, and is held by no other run. */
  lemma HeldApart(s: System, rows: set<string>, i: nat)
    requires Inv(s, rows) && i < |s.runs|
    ensures Placed(s.runs[i]) && Held(s.runs[i]) <= s.spent && Held(s.runs[i]) !! rows
    ensures forall j :: 0 <= j < |s.runs| && j != i ==> Placed(s.runs[j]) && Held(s.runs[i]) !! Held(s.runs[j])
  {
    hide WellFormed, Placed, Held;
  }

  /** No key lies in two committed redemptions, nor was any of them spent at the start. */
  lemma NoDoubleSpend(rows: set<string>, actions: seq<Action>, i: nat, j: nat)
    requires var s := Execute(rows, actions);
             i < |s.runs| && j < |s.runs| && i != j && Committed(s.runs[i]) && Committed(s.runs[j])
    ensures var s := Execute(rows, actions);
            && Elements(Keys(s.runs[i].call)) !! Elements(Keys(s.runs[j].call))
            && Elements(Keys(s.runs[i].call)) !! rows
            && Elements(Keys(s.runs[i].call)) <= s.spent
  {
    hide WellFormed, Placed, Held, Execute, Committed, Inv;
    ExecuteInv(rows, actions);
    var s := Execute(rows, actions);
    HeldApart(s, rows, i);
    CommittedHolds(s.runs[i]);
    CommittedHolds(s.runs[j]);
  }

  lemma IdIsKey(call: Call, v: Voucher)
    requires Acceptable(call) && call.payment.Pic? && v in call.payment.vouchers.value
    ensures v.id.Some? && v.id.value in Elements(Keys(call))
  {
    var vs := call.payment.vouchers.value;
    var i :| 0 <= i < |vs| && vs[i] == v;
    assert Keys(call)[i] == v.id.value;
  }

  lemma SameIdSameVoucher(call: Call, v: Voucher, w: Voucher)
    requires Acceptable(call) && call.payment.Pic?
    requires v in call.payment.vouchers.value && w in call.payment.vouchers.value && v.id == w.id
    ensures v == w
  {
    var vs := call.payment.vouchers.value;
    var i :| 0 <= i < |vs| && vs[i] == v;
    var j :| 0 <= j < |vs| && vs[j] == w;
    assert Ids(vs)[i] == Ids(vs)[j];
  }

  lemma CommittedAcceptable(rows: set<string>, actions: seq<Action>, i: nat)
    requires i < |Execute(rows, actions).runs| && Committed(Execute(rows, actions).runs[i])
    ensures Acceptable(Execute(rows, actions).runs[i].call)
  {
    ExecuteInv(rows, actions);
    assert WellFormed(Execute(rows, actions).runs[i]);
  }

  /**
   * What any number of workers together let through: a committed batch holds distinct, signed, unexpired
   * vouchers of listed issuers in the unit asked for, worth the price; a committed assertion is signed,
   * fresh, made for this provider and request, and covers the price.
   */
  lemma CommittedIsGood(rows: set<string>, actions: seq<Action>, i: nat)
    requires i < |Execute(rows, actions).runs| && Committed(Execute(rows, actions).runs[i])
    ensures var run := Execute(rows, actions).runs[i];
            var terms := run.call.terms;
            match run.call.payment
            case Pic(Some(vs)) =>
              && vs != [] && (forall j, k :: 0 <= j < k < |vs| ==> vs[j].id != vs[k].id)
              && (forall v :: v in vs ==>
                    && v.id.Some? && v.verified.Passes? && v.unit == Some(terms.unit)
                    && v.issuer.Some? && v.issuer.value in terms.issuers
                    && v.expires.At? && terms.now < v.expires.time && v.denomination.Some?)
              && Face(vs) >= terms.price && run.pc.result.total == Face(vs)
            case X402(Some(a)) =>
              && a.signed.Passes? && a.issued.At? && terms.now - a.issued.time <= 300.0
              && a.unit == Some(terms.unit) && a.nonce.Some? && a.nonce.value != ""
              && (terms.provider.Some? ==> a.provider == terms.provider) && (terms.request.Some? ==> a.request == terms.request)
              && a.amount.Some? && a.amount.value >= terms.price && run.pc.result.total == a.amount.value
            case _ => false
  {
    hide Execute;
    ExecuteInv(rows, actions);
    var run := Execute(rows, actions).runs[i];
    assert WellFormed(run);
    if run.call.payment.Pic? {
      var vs := run.call.payment.vouchers.value;
      forall j, k | 0 <= j < k < |vs| ensures vs[j].id != vs[k].id {
        assert Ids(vs)[j] != Ids(vs)[k];
      }
    }
  }

  /** And a refused one is refused for what is wrong with it, or because a key of it was spent. */
  lemma RefusedForReason(rows: set<string>, actions: seq<Action>, i: nat)
    requires var s := Execute(rows, actions); i < |s.runs| && s.runs[i].pc.Done? && !s.runs[i].pc.result.ok
    ensures Explains(Execute(rows, actions).runs[i].call, Execute(rows, actions).runs[i].pc.result)
  {
    hide Execute;
    ExecuteInv(rows, actions);
    assert WellFormed(Execute(rows, actions).runs[i]);
  }

  /** In particular a voucher id is in at most one successful batch, and an x402 nonce is accepted at most once. */
  lemma SingleUse(rows: set<string>, actions: seq<Action>, i: nat, j: nat)
    requires var s := Execute(rows, actions);
             i < |s.runs| && j < |s.runs| && Committed(s.runs[i]) && Committed(s.runs[j])
    ensures var s := Execute(rows, actions);
            match (s.runs[i].call.payment, s.runs[j].call.payment)
            case (Pic(Some(vs)), Pic(Some(ws))) =>
              forall v, w :: v in vs && w in ws && v.id == w.id ==> i == j && v == w
            case (X402(a), X402(b)) => Nonce(a) == Nonce(b) ==> i == j
            case _ => true
  {
    hide Execute, Committed, Acceptable;
    var s := Execute(rows, actions);
    var x, y := s.runs[i].call, s.runs[j].call;
    CommittedAcceptable(rows, actions, i);
    CommittedAcceptable(rows, actions, j);
    if i != j {
      NoDoubleSpend(rows, actions, i, j);
    }
    match (x.payment, y.payment)
    case (Pic(Some(vs)), Pic(Some(ws))) =>
      forall v, w | v in vs && w in ws && v.id == w.id ensures i == j && v == w {
        IdIsKey(x, v);
        IdIsKey(y, w);
        assert i == j;
        SameIdSameVoucher(x, v, w);
      }
    case (X402(a), X402(b)) =>
      AcceptableKeys(x);
      AcceptableKeys(y);
      if Nonce(a) == Nonce(b) {
        assert Keys(x)[0] in Elements(Keys(x)) && Keys(y)[0] in Elements(Keys(y));
      }
    case _ =>
  }

  /** Whoever deletes a row inserted it, and no other run holds it. */
  lemma DeletesOwnRowsOnly(rows: set<string>, actions: seq<Action>, a: Action, k: string)
    requires k in Execute(rows, actions).spent && k !in Apply(Execute(rows, actions), a).spent
    ensures var s := Execute(rows, actions);
            && a.Advance? && k in s.owner && s.owner[k] == a.i && k !in rows
            && a.i < |s.runs| && s.runs[a.i].pc.Undoing?
            && (forall j :: 0 <= j < |s.runs| && j != a.i ==> Placed(s.runs[j]) && k !in Held(s.runs[j]))
  {
    hide WellFormed, Placed, Held, Step, Start, Execute;
    ExecuteInv(rows, actions);
    var s := Execute(rows, actions);
    HeldApart(s, rows, a.i);
    StepHeld(s.runs[a.i], s.spent);
  }

  /** The promise a worker relies on: steps of others leave its run and its rows alone. */
  lemma ForeignStepKeeps(rows: set<string>, actions: seq<Action>, a: Action, j: nat)
    requires j < |Execute(rows, actions).runs| && a != Advance(j)
    ensures var s := Execute(rows, actions);
            var t := Apply(s, a);
            j < |t.runs| && t.runs[j] == s.runs[j] && Placed(s.runs[j]) && Held(s.runs[j]) <= t.spent
  {
    hide WellFormed, Placed, Held, Step, Start, Execute, Inv, Claim;
    ExecuteInv(rows, actions);
    var s := Execute(rows, actions);
    ApplyInv(s, a, rows);
    HeldApart(s, rows, j);
    HeldApart(Apply(s, a), rows, j);
  }

  lemma DoneStays(s: System, a: Action, i: nat)
    requires i < |s.runs| && s.runs[i].pc.Done?
    ensures i < |Apply(s, a).runs| && Apply(s, a).runs[i] == s.runs[i]
  {
    hide Start, Claim;
  }

  /** A committed redemption stays committed, and its keys stay spent, whatever happens next. */
  lemma {:induction false} CommittedForever(rows: set<string>, actions: seq<Action>, more: seq<Action>, i: nat)
    requires i < |Execute(rows, actions).runs| && Committed(Execute(rows, actions).runs[i])
    ensures var t := Execute(rows, actions + more);
            && i < |t.runs| && t.runs[i] == Execute(rows, actions).runs[i]
            && Elements(Keys(t.runs[i].call)) <= t.spent
  {
    hide WellFormed, Placed, Held, Start, Apply, Inv;
    if more == [] {
      assert actions + more == actions;
    } else {
      var front := more[..|more| - 1];
      CommittedForever(rows, actions, front, i);
      assert (actions + more)[..|actions + more| - 1] == actions + front;
      DoneStays(Execute(rows, actions + front), more[|more| - 1], i);
    }
    ExecuteInv(rows, actions + more);
    HeldApart(Execute(rows, actions + more), rows, i);
    CommittedHolds(Execute(rows, actions + more).runs[i]);
  }

  // ---------------------------------------------------------------- what is written

  /** The statements that take effect in an action. */
  function WritesOf(s: System, a: Action): seq<Write> {
    if a.Advance? && a.i < |s.runs| && Placed(s.runs[a.i]) then Effect(s.runs[a.i], s.spent) else []
  }

  /** All statements that took effect, by whichever run, oldest first. */
  function Log(rows: set<string>, actions: seq<Action>): seq<Write> {
    if actions == [] then []
    else
      var front := actions[..|actions| - 1];
      Log(rows, front) + WritesOf(Execute(rows, front), actions[|actions| - 1])
  }

  lemma {:induction false} WrittenAppend(rows: set<string>, a: seq<Write>, b: seq<Write>)
    ensures Written(rows, a + b) == Written(Written(rows, a), b)
  {
    if b == [] {
      assert a + b == a;
    } else {
      assert (a + b)[..|a + b| - 1] == a + b[..|b| - 1];
      WrittenAppend(rows, a, b[..|b| - 1]);
    }
  }

  /** At every moment the table is the initial one with the logged statements carried out: nothing else touches it. */
  lemma {:induction false} TableIsLog(rows: set<string>, actions: seq<Action>)
    ensures Execute(rows, actions).spent == Written(rows, Log(rows, actions))
  {
    hide Step, Effect, Placed, Start, Claim;
    if actions != [] {
      var front, a := actions[..|actions| - 1], actions[|actions| - 1];
      var s := Execute(rows, front);
      TableIsLog(rows, front);
      WrittenAppend(rows, Log(rows, front), WritesOf(s, a));
      if a.Advance? && a.i < |s.runs| && Placed(s.runs[a.i]) {
        EffectExact(s.runs[a.i], s.spent);
      }
    }
  }

  // ---------------------------------------------------------------- sequential runs

  /** Scheduled alone, a run ends where sequential redemption does. */
  lemma {:induction false} Alone(rows: set<string>, actions: seq<Action>, i: nat) returns (more: seq<Action>)
    requires i < |Execute(rows, actions).runs| && Placed(Execute(rows, actions).runs[i])
    ensures var s, t := Execute(rows, actions), Execute(rows, actions + more);
            && i < |t.runs| && t.runs[i].pc.Done?
            && (t.runs[i].pc.result, t.spent) == Finish(s.runs[i], s.spent)
            && (forall a :: a in more ==> a == Advance(i))
    decreases Remaining(Execute(rows, actions).runs[i])
  {
    var s := Execute(rows, actions);
    if s.runs[i].pc.Done? {
      more := [];
      assert actions + more == actions;
    } else {
      var next := actions + [Advance(i)];
      assert next[..|next| - 1] == actions;
      StepProgress(s.runs[i], s.spent);
      more := Alone(rows, next, i);
      assert next + more == actions + ([Advance(i)] + more);
      more := [Advance(i)] + more;
    }
  }

  /** A call that begins and is then left alone has the outcome of redeem_payment on the rows it finds. */
  lemma AloneRedeems(rows: set<string>, actions: seq<Action>, call: Call) returns (more: seq<Action>)
    ensures var s, t := Execute(rows, actions), Execute(rows, actions + [Begin(call)] + more);
            var i := |s.runs|;
            && i < |t.runs| && t.runs[i].pc.Done?
            && (t.runs[i].pc.result, t.spent) == Redeem(call, s.spent)
  {
    var next := actions + [Begin(call)];
    assert next[..|next| - 1] == actions;
    StartWellFormed(call);
    more := Alone(rows, next, |Execute(rows, actions).runs|);
  }

  // ---------------------------------------------------------------- quiescence

  predicate Quiescent(s: System) {
    forall i :: 0 <= i < |s.runs| ==> !s.runs[i].pc.Spending? && !s.runs[i].pc.Undoing?
  }

  /** All keys of all committed runs. */
  function CommittedKeys(runs: seq<Run>): set<string> {
    if runs == [] then {}
    else
      CommittedKeys(runs[..|runs| - 1])
      + if Committed(runs[|runs| - 1]) then Elements(Keys(runs[|runs| - 1].call)) else {}
  }

  /** How many keys the committed runs have between them, counted run by run. */
  function CommittedCount(runs: seq<Run>): nat {
    if runs == [] then 0
    else
      CommittedCount(runs[..|runs| - 1])
      + if Committed(runs[|runs| - 1]) then |Keys(runs[|runs| - 1].call)| else 0
  }

  lemma {:induction false} CommittedKeysIn(runs: seq<Run>, k: string)
    ensures k in CommittedKeys(runs) <==>
            exists i :: 0 <= i < |runs| && Committed(runs[i]) && k in Elements(Keys(runs[i].call))
  {
    if runs != [] {
      CommittedKeysIn(runs[..|runs| - 1], k);
      if k in CommittedKeys(runs[..|runs| - 1]) {
        var i :| 0 <= i < |runs| - 1 && Committed(runs[..|runs| - 1][i]) && k in Elements(Keys(runs[..|runs| - 1][i].call));
        assert Committed(runs[i]) && k in Elements(Keys(runs[i].call));
      }
    }
  }

  /** Outside the spend loops a row is owned exactly when it belongs to a committed run. */
  lemma OwnedIsCommitted(s: System, rows: set<string>, k: string)
    requires Inv(s, rows) && Quiescent(s)
    ensures k in s.owner <==> k in CommittedKeys(s.runs)
  {
    hide CommittedKeys, Keys, WellFormed;
    CommittedKeysIn(s.runs, k);
    if k in s.owner {
      HeldWhenQuiescent(s.runs[s.owner[k]]);
    }
    if k in CommittedKeys(s.runs) {
      var i :| 0 <= i < |s.runs| && Committed(s.runs[i]) && k in Elements(Keys(s.runs[i].call));
      CommittedHolds(s.runs[i]);
    }
  }

  lemma HeldWhenQuiescent(run: Run)
    requires Placed(run) && !run.pc.Spending? && !run.pc.Undoing?
    ensures Held(run) == if Committed(run) then Elements(Keys(run.call)) else {}
  {
  }

  /**
   * When no run is inside its spend loop, the table holds the initial rows and the keys of the
   * successful commits, and nothing else: refused and verify-only redemptions leave no trace.
   */
  lemma QuiescentTable(rows: set<string>, actions: seq<Action>)
    requires Quiescent(Execute(rows, actions))
    ensures var s := Execute(rows, actions);
            && s.spent == rows + CommittedKeys(s.runs)
            && rows !! CommittedKeys(s.runs)
            && |s.spent| == |rows| + CommittedCount(s.runs)
  {
    hide WellFormed, Placed, Execute, CommittedKeys, CommittedCount, Keys, Quiescent;
    ExecuteInv(rows, actions);
    var s := Execute(rows, actions);
    forall k ensures k in s.owner <==> k in CommittedKeys(s.runs) {
      OwnedIsCommitted(s, rows, k);
    }
    CountDisjoint(s, rows, |s.runs|);
    assert s.runs[..|s.runs|] == s.runs;
    assert s.owner.Keys == CommittedKeys(s.runs);
  }

  /** Disjointness in numbers: the union of the committed batches is as large as their sum. */
  lemma {:induction false} CountDisjoint(s: System, rows: set<string>, n: nat)
    requires Inv(s, rows) && n <= |s.runs|
    ensures |CommittedKeys(s.runs[..n])| == CommittedCount(s.runs[..n])
  {
    hide WellFormed, Placed, Held, Inv, Keys, Elements;
    if n > 0 {
      var front, last := s.runs[..n - 1], s.runs[n - 1];
      assert s.runs[..n][..n - 1] == front;
      CountDisjoint(s, rows, n - 1);
      HeldApart(s, rows, n - 1);
      if Committed(last) {
        CommittedHolds(last);
        forall k | k in CommittedKeys(front) ensures k !in Held(last) {
          CommittedKeysIn(front, k);
          var i :| 0 <= i < n - 1 && Committed(front[i]) && k in Elements(Keys(front[i].call));
          HeldApart(s, rows, i);
          CommittedHolds(s.runs[i]);
        }
        CommittedCounts(s, rows, n - 1);
        assert CommittedKeys(front) !! Held(last);
      }
    }
  }

  lemma CommittedCounts(s: System, rows: set<string>, i: nat)
    requires Inv(s, rows) && i < |s.runs| && Committed(s.runs[i])
    ensures |Elements(Keys(s.runs[i].call))| == |Keys(s.runs[i].call)|
  {
    assert WellFormed(s.runs[i]);
    AcceptableKeys(s.runs[i].call);
    ElementsCount(Keys(s.runs[i].call));
  }

  lemma {:induction false} ElementsCount(s: seq<string>)
    requires Distinct(s)
    ensures |Elements(s)| == |s|
  {
    if s != [] {
      var front := s[..|s| - 1];
      ElementsCount(front);
      assert s == front + [s[|s| - 1]];
      assert Elements(s) == Elements(front) + {s[|s| - 1]};
    }
  }
}
