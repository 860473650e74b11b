/** Provider-side accounting (packages/pic-vouchers/src/sip_pic/ledger.py). */
module Ledgers {
  import opened Prelude

  datatype Entry = Entry(provider: string, amount: string, unit: string, refs: seq<string>)

  /** Decimal(text) as a finite number; None when it raises or is no finite number. */
  type Reader = string -> Option<real>

  /** What the loops ask of an entry. */
  predicate InUnit(e: Entry, unit: Option<string>) {
    unit.None? || unit.value == e.unit
  }

  /** What an entry counts for in one unit, or in all. */
  function Worth(read: Reader, unit: Option<string>): Entry -> real {
    (e: Entry) => if (unit.None? || unit == Some(e.unit)) && read(e.amount).Some? then read(e.amount).value else 0.0
  }

  function Sum(entries: seq<Entry>, worth: Entry -> real): real {
    if entries == [] then 0.0 else Sum(entries[..|entries| - 1], worth) + worth(entries[|entries| - 1])
  }

  lemma SumNext(entries: seq<Entry>, worth: Entry -> real, n: nat)
    requires n < |entries|
    ensures Sum(entries[..n + 1], worth) == Sum(entries[..n], worth) + worth(entries[n])
  {
    assert entries[..n + 1][..n] == entries[..n];
  }

  /** An entry counts for its amount in its own unit and in all units together, and for nothing in any other. */
  lemma {:induction false} SumSplits(a: seq<Entry>, b: seq<Entry>, read: Reader, unit: Option<string>)
    ensures Sum(a + b, Worth(read, unit)) == Sum(a, Worth(read, unit)) + Sum(b, Worth(read, unit))
    ensures forall e: Entry :: read(e.amount).Some? ==>
              Sum([e], Worth(read, unit)) == if unit.Some? && unit.value != e.unit then 0.0 else read(e.amount).value
  {
    forall e: Entry | read(e.amount).Some?
      ensures Sum([e], Worth(read, unit)) == if unit.Some? && unit.value != e.unit then 0.0 else read(e.amount).value
    {
      assert [e][..0] == [];
    }
    if b == [] {
      assert a + b == a;
    } else {
      SumSplits(a, b[..|b| - 1], read, unit);
      assert (a + b)[..|a + b| - 1] == a + b[..|b| - 1];
    }
  }

  class Ledger {
    var entries: seq<Entry>

    constructor ()
      ensures entries == []
    {
      entries := [];
    }

    method Record(provider: string, amount: string, unit: string, refs: seq<string>)
      modifies this
      ensures entries == old(entries) + [Entry(provider, amount, unit, refs)]
    {
      entries := entries + [Entry(provider, amount, unit, refs)];
    }

    /** None when an amount that counts is no finite number: then the code raises or returns none either. */
    method Balance(read: Reader, provider: string, unit: Option<string>) returns (total: Option<real>)
      ensures total.None? <==>
              exists e :: e in entries && e.provider == provider && (unit.None? || unit == Some(e.unit)) && read(e.amount).None?
      ensures total.Some? ==>
                total.value == Sum(entries, (e: Entry) => if e.provider == provider then Worth(read, unit)(e) else 0.0)
    {
      var sum := 0.0;
      ghost var worth := (e: Entry) => if e.provider == provider then Worth(read, unit)(e) else 0.0;
      for i := 0 to |entries|
        invariant sum == Sum(entries[..i], worth)
        invariant forall k :: 0 <= k < i && entries[k].provider == provider && InUnit(entries[k], unit) ==>
                    read(entries[k].amount).Some?
      {
        SumNext(entries, worth, i);
        var e := entries[i];
        assert worth(e) == if e.provider == provider then Worth(read, unit)(e) else 0.0;
        if e.provider != provider {
          continue;
        }
        if InUnit(e, unit) {
          var amount := read(e.amount);
          if amount.None? {
            assert e in entries;
            return None;
          }
          sum := sum + amount.value;
        }
      }
      assert entries[..|entries|] == entries;
      return Some(sum);
    }

    method Total(read: Reader, unit: Option<string>) returns (total: Option<real>)
      ensures total.None? <==> exists e :: e in entries && (unit.None? || unit == Some(e.unit)) && read(e.amount).None?
      ensures total.Some? ==> total.value == Sum(entries, Worth(read, unit))
    {
      var sum := 0.0;
      for i := 0 to |entries|
        invariant sum == Sum(entries[..i], Worth(read, unit))
        invariant forall k :: 0 <= k < i && InUnit(entries[k], unit) ==> read(entries[k].amount).Some?
      {
        SumNext(entries, Worth(read, unit), i);
        var e := entries[i];
        if InUnit(e, unit) {
          var amount := read(e.amount);
          if amount.None? {
            assert e in entries;
            return None;
          }
          sum := sum + amount.value;
        }
      }
      assert entries[..|entries|] == entries;
      return Some(sum);
    }
  }
}
