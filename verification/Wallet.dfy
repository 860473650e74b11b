/** The payer's wallet (packages/pic-vouchers/src/sip_pic/wallet.py). */
module Wallets {
  import opened Prelude
  import opened Payments

  type PricedVoucher = v: Voucher | v.denomination.Some?
    witness Voucher(None, Fails, None, None, NotATime, Some(0.0))

  /** A voucher as an object in memory: the wallet removes by identity, not by content. */
  class Note {
    const voucher: PricedVoucher

    constructor (voucher: PricedVoucher)
      ensures this.voucher == voucher
    {
      this.voucher := voucher;
    }
  }

  /** What the loops ask of a note. */
  predicate InUnit(note: Note, unit: Option<string>) {
    unit.None? || note.voucher.unit == unit
  }

  /** Held face value in a unit (or in all of them). */
  function FaceOf(notes: seq<Note>, unit: Option<string>): real {
    if notes == [] then 0.0
    else
      FaceOf(notes[..|notes| - 1], unit)
      + if unit.None? || notes[|notes| - 1].voucher.unit == unit then notes[|notes| - 1].voucher.denomination.value else 0.0
  }

  /** The notes of one unit, in wallet order. */
  function OfUnit(notes: seq<Note>, unit: string): seq<Note> {
    if notes == [] then []
    else
      OfUnit(notes[..|notes| - 1], unit)
      + if notes[|notes| - 1].voucher.unit == Some(unit) then [notes[|notes| - 1]] else []
  }

  /** The notes that are not among `gone`, in order. */
  function Drop(notes: seq<Note>, gone: set<Note>): seq<Note> {
    if notes == [] then []
    else
      Drop(notes[..|notes| - 1], gone)
      + if notes[|notes| - 1] !in gone then [notes[|notes| - 1]] else []
  }

  /** The shortest prefix of `notes` worth at least `target`. */
  ghost predicate ShortestReaching(picked: seq<Note>, notes: seq<Note>, target: Decimal) {
    && picked <= notes
    && AtLeast(FaceOf(picked, None), target)
    && forall k :: 0 <= k < |picked| ==> !AtLeast(FaceOf(picked[..k], None), target)
  }

  datatype Selection =
    | BadAmount                      // Decimal(amount), or comparing with it, raises
    | InsufficientFunds
    | Picked(notes: seq<Note>)

  class Wallet {
    var vouchers: seq<Note>

    constructor (notes: seq<Note>)
      ensures vouchers == notes
    {
      vouchers := notes;
    }

    method Add(notes: seq<Note>)
      modifies this
      ensures vouchers == old(vouchers) + notes
    {
      vouchers := vouchers + notes;
    }

    method Balance(unit: Option<string>) returns (total: real)
      ensures total == FaceOf(vouchers, unit)
    {
      total := 0.0;
      for i := 0 to |vouchers|
        invariant total == FaceOf(vouchers[..i], unit)
      {
        assert vouchers[..i + 1][..i] == vouchers[..i];
        if InUnit(vouchers[i], unit) {
          total := total + vouchers[i].voucher.denomination.value;
        }
      }
      assert vouchers[..|vouchers|] == vouchers;
    }

    /** Greedy selection of enough notes of a unit; what is returned has left the wallet. */
    method Select(amount: Decimal, unit: string) returns (s: Selection)
      modifies this
      ensures s.BadAmount? <==> amount.Undecimal? || amount.NaN?
      ensures amount.Finite? ==> (s.Picked? <==> FaceOf(old(vouchers), Some(unit)) >= amount.value)
      ensures amount.Infinite? ==> s == if amount.positive then InsufficientFunds else Picked([])
      ensures (forall x :: x in old(vouchers) ==> x.voucher.unit != Some(unit)) && amount.Finite? && amount.value > 0.0 ==>
                s.InsufficientFunds?
      ensures !s.Picked? ==> vouchers == old(vouchers)
      ensures s.Picked? ==>
                && ShortestReaching(s.notes, OfUnit(old(vouchers), unit), amount)
                && vouchers == Drop(old(vouchers), Elements(s.notes))
                && (forall x :: x in s.notes ==> x in old(vouchers) && x.voucher.unit == Some(unit))
                && (forall x :: x in old(vouchers) && x.voucher.unit != Some(unit) ==> x in vouchers)
      ensures forall u :: u != unit ==> FaceOf(vouchers, Some(u)) == FaceOf(old(vouchers), Some(u))
      ensures s.Picked? && Distinct(old(vouchers)) ==>
                && Distinct(vouchers + s.notes)
                && multiset(vouchers) + multiset(s.notes) == multiset(old(vouchers))
                && FaceOf(vouchers, Some(unit)) == FaceOf(old(vouchers), Some(unit)) - FaceOf(s.notes, None)
    {
      if forall x :: x in vouchers ==> x.voucher.unit != Some(unit) {
        NoneHeld(vouchers, unit);
      }
      if amount.Undecimal? || amount.NaN? {
        return BadAmount;
      }
      var held := Balance(Some(unit));
      if !AtLeast(held, amount) {
        return InsufficientFunds;
      }
      var picked := Pick(vouchers, unit, amount);
      AfterSelect(vouchers, unit, picked);
      PickedInUnit(vouchers, unit, picked);
      DropExact(vouchers, Elements(picked));
      forall u | u != unit
        ensures FaceOf(Drop(vouchers, Elements(picked)), Some(u)) == FaceOf(vouchers, Some(u))
      {
        DropOther(vouchers, Elements(picked), u);
      }
      vouchers := Drop(vouchers, Elements(picked));
      return Picked(picked);
    }
  }

  /** The selection loop. */
  method Pick(notes: seq<Note>, unit: string, target: Decimal) returns (picked: seq<Note>)
    requires AtLeast(FaceOf(notes, Some(unit)), target)
    ensures ShortestReaching(picked, OfUnit(notes, unit), target)
  {
    hide FaceOf, OfUnit;
    picked := [];
    var accumulated := 0.0;
    var i := 0;
    PickNone(notes, unit);
    while i < |notes| && !AtLeast(accumulated, target)
      invariant 0 <= i <= |notes|
      invariant picked == OfUnit(notes[..i], unit)
      invariant accumulated == FaceOf(picked, None) == FaceOf(notes[..i], Some(unit))
      invariant forall k :: 0 <= k < |picked| ==> !AtLeast(FaceOf(picked[..k], None), target)
    {
      PickNext(notes, unit, picked, i);
      assert forall k :: 0 <= k <= |picked| ==> (picked + [notes[i]])[..k] == picked[..k];
      assert picked[..|picked|] == picked;
      if InUnit(notes[i], Some(unit)) {
        picked := picked + [notes[i]];
        accumulated := accumulated + notes[i].voucher.denomination.value;
      }
      i := i + 1;
    }
    assert notes[..|notes|] == notes;
    OfUnitPrefix(notes, unit, i);
  }

  lemma PickNone(notes: seq<Note>, unit: string)
    ensures OfUnit(notes[..0], unit) == [] && FaceOf(notes[..0], Some(unit)) == FaceOf([], None) == 0.0
  {
  }

  /** What the loop has seen and picked after one more note. */
  lemma PickNext(notes: seq<Note>, unit: string, picked: seq<Note>, i: nat)
    requires i < |notes|
    ensures notes[i].voucher.unit == Some(unit) ==>
              && OfUnit(notes[..i + 1], unit) == OfUnit(notes[..i], unit) + [notes[i]]
              && FaceOf(notes[..i + 1], Some(unit)) == FaceOf(notes[..i], Some(unit)) + notes[i].voucher.denomination.value
              && FaceOf(picked + [notes[i]], None) == FaceOf(picked, None) + notes[i].voucher.denomination.value
    ensures notes[i].voucher.unit != Some(unit) ==>
              && OfUnit(notes[..i + 1], unit) == OfUnit(notes[..i], unit)
              && FaceOf(notes[..i + 1], Some(unit)) == FaceOf(notes[..i], Some(unit))
  {
    assert notes[..i + 1][..i] == notes[..i];
    FaceSnoc(picked, notes[i], None);
  }

  lemma {:induction false} OfUnitPrefix(notes: seq<Note>, unit: string, i: nat)
    requires i <= |notes|
    ensures OfUnit(notes[..i], unit) <= OfUnit(notes, unit)
    decreases |notes|
  {
    if i == |notes| {
      assert notes[..i] == notes;
    } else {
      var front := notes[..|notes| - 1];
      assert front[..i] == notes[..i];
      OfUnitPrefix(front, unit, i);
    }
  }

  // ---------------------------------------------------------------- conservation

  /** The notes that Drop leaves out, in order. */
  function Keep(notes: seq<Note>, gone: set<Note>): seq<Note> {
    if notes == [] then []
    else
      Keep(notes[..|notes| - 1], gone)
      + if notes[|notes| - 1] in gone then [notes[|notes| - 1]] else []
  }

  /** Drop and Keep split a wallet: no note is lost or made ... */
  lemma {:induction false} DropKeep(notes: seq<Note>, gone: set<Note>)
    ensures multiset(Drop(notes, gone)) + multiset(Keep(notes, gone)) == multiset(notes)
  {
    if notes != [] {
      var front, x := notes[..|notes| - 1], notes[|notes| - 1];
      DropKeep(front, gone);
      assert notes == front + [x];
      assert multiset(notes) == multiset(front) + multiset{x};
    }
  }

  /** ... and no value. */
  lemma {:induction false} DropKeepFace(notes: seq<Note>, gone: set<Note>, unit: Option<string>)
    ensures FaceOf(Drop(notes, gone), unit) + FaceOf(Keep(notes, gone), unit) == FaceOf(notes, unit)
  {
    if notes != [] {
      var front, x := notes[..|notes| - 1], notes[|notes| - 1];
      DropKeepFace(front, gone, unit);
      if x in gone {
        FaceSnoc(Keep(front, gone), x, unit);
        assert Drop(notes, gone) == Drop(front, gone);
      } else {
        FaceSnoc(Drop(front, gone), x, unit);
        assert Keep(notes, gone) == Keep(front, gone);
      }
    }
  }

  /** A further note adds its value to the balance of its own unit, and of all units, and to no other. */
  lemma FaceSnoc(notes: seq<Note>, x: Note, unit: Option<string>)
    ensures FaceOf(notes + [x], unit)
         == FaceOf(notes, unit) + if unit.None? || unit == x.voucher.unit then x.voucher.denomination.value else 0.0
  {
    assert (notes + [x])[..|notes|] == notes;
  }

  lemma {:induction false} FaceAppend(a: seq<Note>, b: seq<Note>, unit: Option<string>)
    ensures FaceOf(a + b, unit) == FaceOf(a, unit) + FaceOf(b, unit)
  {
    if b == [] {
      assert a + b == a;
    } else {
      FaceAppend(a, b[..|b| - 1], unit);
      assert (a + b)[..|a + b| - 1] == a + b[..|b| - 1];
    }
  }

  /** One occurrence of x can be taken out of b, wherever it is. */
  lemma TakeOut(front: seq<Note>, x: Note, b: seq<Note>) returns (u: seq<Note>, v: seq<Note>)
    requires multiset(front + [x]) == multiset(b)
    ensures b == u + [x] + v && multiset(front) == multiset(u + v)
  {
    assert multiset(front + [x]) == multiset(front) + multiset{x};
    assert x in multiset(b);
    var i :| 0 <= i < |b| && b[i] == x;
    u, v := b[..i], b[i + 1..];
    assert b == u + [x] + v;
    assert multiset(b) == multiset(u) + multiset{x} + multiset(v);
    assert multiset(u + v) == multiset(b) - multiset{x};
  }

  /** The balance does not depend on the order in which notes are held. */
  lemma {:induction false} FacePermuted(a: seq<Note>, b: seq<Note>, unit: Option<string>)
    requires multiset(a) == multiset(b)
    ensures FaceOf(a, unit) == FaceOf(b, unit)
  {
    if a == [] {
      assert |multiset(b)| == 0;
    } else {
      var front, x := a[..|a| - 1], a[|a| - 1];
      assert a == front + [x];
      var u, v := TakeOut(front, x, b);
      FacePermuted(front, u + v, unit);
      FaceAppend(u, v, unit);
      FaceAppend(u + [x], v, unit);
      FaceSnoc(u, x, unit);
      FaceSnoc(front, x, unit);
    }
  }

  lemma {:induction false} OfUnitIn(notes: seq<Note>, unit: string, x: Note)
    requires x in OfUnit(notes, unit)
    ensures x in notes && x.voucher.unit == Some(unit)
  {
    var front, last := notes[..|notes| - 1], notes[|notes| - 1];
    if x in OfUnit(front, unit) {
      OfUnitIn(front, unit, x);
    }
  }

  /** In a wallet of distinct objects, exactly the picked prefix leaves. */
  lemma {:induction false} KeepPicked(notes: seq<Note>, unit: string, picked: seq<Note>)
    requires Distinct(notes) && picked <= OfUnit(notes, unit)
    ensures Keep(notes, Elements(picked)) == picked
  {
    if notes != [] {
      var front, x := notes[..|notes| - 1], notes[|notes| - 1];
      var before := OfUnit(front, unit);
      assert x !in front;
      assert x !in before by { if x in before { OfUnitIn(front, unit, x); } }
      if picked <= before {
        KeepPicked(front, unit, picked);
        assert x !in picked;
      } else {
        assert picked == before + [x];
        KeepPicked(front, unit, before);
        KeepSame(front, Elements(before), Elements(picked));
      }
    }
  }

  lemma {:induction false} KeepSame(notes: seq<Note>, a: set<Note>, b: set<Note>)
    requires forall x :: x in notes ==> (x in a <==> x in b)
    ensures Keep(notes, a) == Keep(notes, b)
  {
    if notes != [] {
      KeepSame(notes[..|notes| - 1], a, b);
    }
  }

  lemma {:induction false} DropDistinct(notes: seq<Note>, gone: set<Note>)
    requires Distinct(notes)
    ensures Distinct(Drop(notes, gone))
  {
    if notes != [] {
      DropDistinct(notes[..|notes| - 1], gone);
      DropExact(notes[..|notes| - 1], gone);
    }
  }

  lemma {:induction false} OfUnitDistinct(notes: seq<Note>, unit: string)
    requires Distinct(notes)
    ensures Distinct(OfUnit(notes, unit))
  {
    if notes != [] {
      var front, x := notes[..|notes| - 1], notes[|notes| - 1];
      OfUnitDistinct(front, unit);
      if x in OfUnit(front, unit) { OfUnitIn(front, unit, x); }
    }
  }

  lemma {:induction false} FaceSameUnit(notes: seq<Note>, unit: string)
    requires forall x :: x in notes ==> x.voucher.unit == Some(unit)
    ensures FaceOf(notes, Some(unit)) == FaceOf(notes, None)
  {
    if notes != [] {
      FaceSameUnit(notes[..|notes| - 1], unit);
    }
  }

  lemma PickedInUnit(notes: seq<Note>, unit: string, picked: seq<Note>)
    requires picked <= OfUnit(notes, unit)
    ensures forall x :: x in picked ==> x in notes && x.voucher.unit == Some(unit)
  {
    forall x | x in picked ensures x in notes && x.voucher.unit == Some(unit) {
      assert x in OfUnit(notes, unit);
      OfUnitIn(notes, unit, x);
    }
  }

  /** Notes that do not leave keep their place in the balance of their unit. */
  lemma {:induction false} DropOther(notes: seq<Note>, gone: set<Note>, unit: string)
    requires forall x :: x in gone ==> x.voucher.unit != Some(unit)
    ensures FaceOf(Drop(notes, gone), Some(unit)) == FaceOf(notes, Some(unit))
  {
    if notes != [] {
      var front, x := notes[..|notes| - 1], notes[|notes| - 1];
      DropOther(front, gone, unit);
      if x in gone {
        assert Drop(notes, gone) == Drop(front, gone);
      } else {
        FaceSnoc(Drop(front, gone), x, Some(unit));
      }
    }
  }

  /** Exactly the notes not picked stay. */
  lemma {:induction false} DropExact(notes: seq<Note>, gone: set<Note>)
    ensures forall x :: x in Drop(notes, gone) <==> x in notes && x !in gone
  {
    if notes != [] {
      DropExact(notes[..|notes| - 1], gone);
      assert notes == notes[..|notes| - 1] + [notes[|notes| - 1]];
    }
  }

  /** Whoever holds no note of a unit has a balance of zero in it. */
  lemma {:induction false} NoneHeld(notes: seq<Note>, unit: string)
    requires forall x :: x in notes ==> x.voucher.unit != Some(unit)
    ensures FaceOf(notes, Some(unit)) == 0.0
  {
    if notes != [] {
      NoneHeld(notes[..|notes| - 1], unit);
    }
  }

  /** Selecting a prefix of a unit's notes from a wallet of distinct objects conserves notes and value. */
  lemma AfterSelect(notes: seq<Note>, unit: string, picked: seq<Note>)
    requires picked <= OfUnit(notes, unit)
    ensures var rest := Drop(notes, Elements(picked));
            Distinct(notes) ==>
              && Distinct(rest + picked)
              && multiset(rest) + multiset(picked) == multiset(notes)
              && FaceOf(rest, Some(unit)) == FaceOf(notes, Some(unit)) - FaceOf(picked, None)
  {
    if Distinct(notes) {
      hide Drop, Keep, OfUnit, FaceOf;
      var gone := Elements(picked);
      DropKeep(notes, gone);
      DropKeepFace(notes, gone, Some(unit));
      KeepPicked(notes, unit, picked);
      DropDistinct(notes, gone);
      DropExact(notes, gone);
      OfUnitDistinct(notes, unit);
      DistinctJoin(Drop(notes, gone), picked);
      PickedInUnit(notes, unit, picked);
      FaceSameUnit(picked, unit);
    }
  }

  lemma DistinctJoin(a: seq<Note>, b: seq<Note>)
    requires Distinct(a) && Distinct(b) && forall x :: x in a ==> x !in b
    ensures Distinct(a + b)
  {
    forall i, j | 0 <= i < j < |a + b| ensures (a + b)[i] != (a + b)[j] {
      if i < |a| <= j {
        assert a[i] in a && b[j - |a|] in b;
      }
    }
  }

  lemma {:induction false} KeepCount(notes: seq<Note>, gone: set<Note>, x: Note)
    ensures multiset(Keep(notes, gone))[x] == if x in gone then multiset(notes)[x] else 0
  {
    if notes != [] {
      KeepCount(notes[..|notes| - 1], gone, x);
      assert notes == notes[..|notes| - 1] + [notes[|notes| - 1]];
    }
  }

  /**
   * For any wallet, distinct or not: nothing is lost by removing the picked objects if and only if
   * each was picked as often as it was held.
   */
  lemma DropConserves(notes: seq<Note>, picked: seq<Note>)
    ensures multiset(Drop(notes, Elements(picked))) + multiset(picked) == multiset(notes)
       <==> forall x :: x in picked ==> multiset(picked)[x] == multiset(notes)[x]
  {
    hide Drop, Keep;
    var gone := Elements(picked);
    DropKeep(notes, gone);
    var rest, kept := multiset(Drop(notes, gone)), multiset(Keep(notes, gone));
    assert rest + multiset(picked) == multiset(notes) <==> kept == multiset(picked) by {
      if rest + multiset(picked) == multiset(notes) {
        assert multiset(picked) == multiset(notes) - rest == kept;
      }
    }
    forall x ensures kept[x] == if x in picked then multiset(notes)[x] else 0 {
      KeepCount(notes, gone, x);
    }
    if forall x :: x in picked ==> multiset(picked)[x] == multiset(notes)[x] {
      forall x ensures kept[x] == multiset(picked)[x] {
        assert x !in picked ==> multiset(picked)[x] == 0;
      }
    }
  }
}
