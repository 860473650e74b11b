/** Sequential runs mixing every kind of redemption over one table. */
module SequentialRuns {
  import opened Prelude
  import opened NumberTheory
  import opened Payments
  import opened Redemption
  import Blind = BlindCredits

  datatype Attempt = Ordinary(call: Call) | Blinded(x: Blind.Redemption)

  function KeysOf(a: Attempt): set<string> {
    match a
    case Ordinary(call) => Elements(Keys(call))
    case Blinded(x) => {Blind.SpendKey(x.credit)}
  }

  /** Did the attempt succeed and consume, and what rows does it leave? */
  function After(sha: Blind.Sha, a: Attempt, spent: set<string>): (bool, set<string>) {
    match a
    case Ordinary(call) => var (r, rows) := Redeem(call, spent); (r.ok && call.commit, rows)
    case Blinded(x) => var (refusal, rows) := Blind.RedeemBlind(sha, x, spent); (refusal.None?, rows)
  }

  function Rows(sha: Blind.Sha, attempts: seq<Attempt>, spent: set<string>): set<string> {
    if attempts == [] then spent
    else After(sha, attempts[|attempts| - 1], Rows(sha, attempts[..|attempts| - 1], spent)).1
  }

  /** The n-th attempt of a run consumes its keys. */
  predicate Consumes(sha: Blind.Sha, attempts: seq<Attempt>, spent: set<string>, n: nat)
    requires n < |attempts|
  {
    After(sha, attempts[n], Rows(sha, attempts[..n], spent)).0
  }

  /** Every attempt is all or nothing: with success its keys were free and are now spent. */
  lemma AfterIs(sha: Blind.Sha, a: Attempt, spent: set<string>)
    ensures var (ok, rows) := After(sha, a, spent);
            && rows == (if ok then spent + KeysOf(a) else spent)
            && (ok ==> KeysOf(a) !! spent)
  {
    hide Acceptable, Explains, Redeem, Keys, Value, Blind.Objection, Blind.SpendKey;
    match a
    case Ordinary(call) => RedeemAllOrNothing(call, spent);
    case Blinded(x) =>
  }

  lemma {:induction false} RowsGrow(sha: Blind.Sha, attempts: seq<Attempt>, spent: set<string>, n: nat)
    requires n <= |attempts|
    ensures Rows(sha, attempts[..n], spent) <= Rows(sha, attempts, spent)
    decreases |attempts|
  {
    if n == |attempts| {
      assert attempts[..n] == attempts;
    } else {
      var front := attempts[..|attempts| - 1];
      RowsGrow(sha, front, spent, n);
      assert front[..n] == attempts[..n];
      AfterIs(sha, attempts[|attempts| - 1], Rows(sha, front, spent));
    }
  }

  lemma RowsNext(sha: Blind.Sha, attempts: seq<Attempt>, spent: set<string>, i: nat)
    requires i < |attempts|
    ensures Rows(sha, attempts[..i + 1], spent) == After(sha, attempts[i], Rows(sha, attempts[..i], spent)).1
  {
    assert attempts[..i + 1][..i] == attempts[..i];
  }

  /** Keys consumed once are refused ever after, whatever the kinds of the two attempts. */
  lemma ConsumedOnce(sha: Blind.Sha, attempts: seq<Attempt>, spent: set<string>, i: nat, j: nat)
    requires i < j < |attempts| && Consumes(sha, attempts, spent, i)
    ensures KeysOf(attempts[i]) <= Rows(sha, attempts[..j], spent)
    ensures Consumes(sha, attempts, spent, j) ==> KeysOf(attempts[i]) !! KeysOf(attempts[j])
  {
    hide Rows, After, KeysOf;
    RowsNext(sha, attempts, spent, i);
    AfterIs(sha, attempts[i], Rows(sha, attempts[..i], spent));
    RowsGrow(sha, attempts[..j], spent, i + 1);
    assert attempts[..j][..i + 1] == attempts[..i + 1];
    AfterIs(sha, attempts[j], Rows(sha, attempts[..j], spent));
  }

  /**
   * What a run consumes, in full. An ordinary attempt: a committing call with an acceptable payment and
   * unspent keys. A blind credit: one of a known issuer, signed with its private exponent, at its own
   * price and unit, with an unspent key.
   */
  lemma ConsumesExactly(
    p: nat, q: nat, key: Blind.BlindIssuerKey, d: nat, sha: Blind.Sha, attempts: seq<Attempt>, spent: set<string>, n: nat)
    requires n < |attempts| && RsaKey(p, q, key.n, key.e, d) && Blind.Hashable(key)
    requires attempts[n].Blinded? ==> Blind.ParseKey(attempts[n].x.credit.issuer) == Some(key)
    ensures var rows := Rows(sha, attempts[..n], spent);
            Consumes(sha, attempts, spent, n) <==>
            match attempts[n]
            case Ordinary(call) => call.commit && Acceptable(call) && Elements(Keys(call)) !! rows
            case Blinded(x) =>
              && x.credit.issuer in x.issuers && Blind.Genuine(sha, x.credit, key, d)
              && x.price == x.credit.amount && x.unit == x.credit.unit
              && "blind:" + x.credit.issuer + ":" + x.credit.token !in rows
  {
    hide Rows;
    var rows := Rows(sha, attempts[..n], spent);
    match attempts[n]
    case Ordinary(call) =>
      RedeemAllOrNothing(call, rows);
      hide Acceptable, Explains, Redeem, Keys, Value;
    case Blinded(x) =>
      Blind.RedemptionExact(p, q, key, d, sha, x, rows);
      hide Blind.RedeemBlind, Blind.Genuine;
  }

  /**
   * A freshly issued credit, presented at its own price and unit to a verifier that knows its
   * issuer, is accepted exactly when its spend key is unused, and after that never again.
   */
  lemma CreditLifecycle(
    sha: Blind.Sha, x: Blind.Redemption, before: seq<Attempt>, between: seq<Attempt>, spent: set<string>)
    requires Blind.VerifyCredit(sha, x.credit) && x.credit.issuer in x.issuers
    requires x.price == x.credit.amount && x.unit == x.credit.unit
    ensures var first := before + [Blinded(x)];
            var again := first + between + [Blinded(x)];
            && (Consumes(sha, first, spent, |before|) <==> Blind.SpendKey(x.credit) !in Rows(sha, before, spent))
            && !Consumes(sha, again, spent, |again| - 1)
  {
    var first := before + [Blinded(x)];
    var again := first + between + [Blinded(x)];
    assert first[..|before|] == before;
    AfterIs(sha, Blinded(x), Rows(sha, before, spent));
    assert Blind.SpendKey(x.credit) in Rows(sha, first, spent);
    RowsGrow(sha, first + between, spent, |first|);
    assert (first + between)[..|first|] == first;
    assert again[..|again| - 1] == first + between;
  }

  /**
   * The whole life of a credit: for every valid key, serial, denomination that does not hash to
   * zero and admissible factor, the issuer signs the blinded message, the finalised credit is
   * accepted at its own price and unit exactly when its spend key is unused, and never again.
   */
  lemma IssuedCreditLifecycle(
    p: nat, q: nat, key: Blind.BlindIssuerKey, d: nat, sha: Blind.Sha, token: Bytes, amount: string, unit: string, r: nat,
    issuers: seq<string>, before: seq<Attempt>, between: seq<Attempt>, spent: set<string>)
    requires RsaKey(p, q, key.n, key.e, d) && Blind.Hashable(key) && Blind.Encodable(amount, unit)
    requires Blind.Admissible(r, key.n) && Blind.Fdh(sha, token, amount, unit, key) != 0
    requires Blind.KeyText(key) in issuers
    ensures var signed := Blind.SignBlinded(Blind.Blind(Blind.Fdh(sha, token, amount, unit, key), r, key), d, key.n);
            && signed.Some?
            && var credit := Blind.Finalize(signed.value, token, r, amount, unit, key);
               var x := Blind.Redemption(credit, amount, unit, issuers);
               var first := before + [Blinded(x)];
               var again := first + between + [Blinded(x)];
               && (Consumes(sha, first, spent, |before|) <==> Blind.SpendKey(credit) !in Rows(sha, before, spent))
               && !Consumes(sha, again, spent, |again| - 1)
  {
    hide Blind.VerifyCredit, Blind.Fdh, Consumes, Rows;
    Blind.IssuedCreditVerifies(p, q, key, d, sha, token, amount, unit, r);
    var signed := Blind.SignBlinded(Blind.Blind(Blind.Fdh(sha, token, amount, unit, key), r, key), d, key.n);
    var credit := Blind.Finalize(signed.value, token, r, amount, unit, key);
    CreditLifecycle(sha, Blind.Redemption(credit, amount, unit, issuers), before, between, spent);
  }
}
