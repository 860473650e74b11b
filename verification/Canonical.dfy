/** Canonical form: keys sorted by code point at every level, compact text, UTF-8. */
module Canonical {
  import opened Prelude
  import opened Json
  import Utf8

  /** Lexicographic order of strings by code point, character by character. */
  predicate Less(a: string, b: string) {
    b != "" && (a == "" || a[0] < b[0] || (a[0] == b[0] && Less(a[1..], b[1..])))
  }

  function Insert(ms: seq<Member>, m: Member): seq<Member> {
    if ms == [] || Less(m.key, ms[0].key) then [m] + ms else [ms[0]] + Insert(ms[1..], m)
  }

  function Sort(ms: seq<Member>): seq<Member> {
    if ms == [] then [] else Insert(Sort(ms[1..]), ms[0])
  }

  /** The value json.dumps(sort_keys=True) prints. */
  function Normalize(j: Json): Json {
    match j
    case JArr(items) => JArr(NormalizeItems(items))
    case JObj(ms) => JObj(Sort(NormalizeMembers(ms)))
    case _ => j
  }

  function NormalizeItems(items: seq<Json>): (r: seq<Json>)
    ensures |r| == |items| && forall i :: 0 <= i < |items| ==> r[i] == Normalize(items[i])
  {
    if items == [] then [] else [Normalize(items[0])] + NormalizeItems(items[1..])
  }

  function NormalizeMembers(ms: seq<Member>): (r: seq<Member>)
    ensures |r| == |ms|
    ensures forall i :: 0 <= i < |ms| ==> r[i] == Member(ms[i].key, Normalize(ms[i].value))
  {
    if ms == [] then [] else [Member(ms[0].key, Normalize(ms[0].value))] + NormalizeMembers(ms[1..])
  }

  function CanonicalText(j: Json): string {
    Print(Normalize(j))
  }

  /** canonical_json */
  function CanonicalJson(j: Json): Bytes {
    Utf8.Encode(CanonicalText(j))
  }

  // ---------------------------------------------------------------- the order of keys

  /** The order of code points: a proper prefix, or the text with the smaller character where the two first differ. */
  ghost predicate Precedes(a: string, b: string) {
    || (|a| < |b| && a == b[..|a|])
    || exists i :: 0 <= i < |a| && i < |b| && a[..i] == b[..i] && a[i] < b[i]
  }

  lemma {:induction false} LessExact(a: string, b: string)
    ensures Less(a, b) <==> Precedes(a, b)
  {
    if a != "" && b != "" {
      if a[0] == b[0] {
        LessExact(a[1..], b[1..]);
        PrecedesTail(a, b);
      } else {
        PrecedesHead(a, b);
      }
    }
  }

  lemma PrecedesHead(a: string, b: string)
    requires a != "" && b != "" && a[0] != b[0]
    ensures Precedes(a, b) <==> a[0] < b[0]
  {
    assert |a| <= |b| ==> b[..|a|][0] == b[0];
    if i :| 0 <= i < |a| && i < |b| && a[..i] == b[..i] && a[i] < b[i] {
      SameHead(a, b, i);
    }
    if a[0] < b[0] {
      assert a[..0] == b[..0];
    }
  }

  lemma PrecedesTail(a: string, b: string)
    requires a != "" && b != "" && a[0] == b[0]
    ensures Precedes(a, b) <==> Precedes(a[1..], b[1..])
  {
    var x, y := a[1..], b[1..];
    assert a == [a[0]] + x && b == [b[0]] + y;
    if i :| 0 <= i < |x| && i < |y| && x[..i] == y[..i] && x[i] < y[i] {
      assert a[..i + 1] == [a[0]] + x[..i] && b[..i + 1] == [b[0]] + y[..i];
      assert a[i + 1] < b[i + 1];
    }
    if i :| 0 <= i < |a| && i < |b| && a[..i] == b[..i] && a[i] < b[i] {
      assert x[..i - 1] == a[..i][1..] && y[..i - 1] == b[..i][1..];
      assert x[i - 1] < y[i - 1];
    }
    assert |a| < |b| ==> (a == b[..|a|] <==> x == y[..|x|]) by {
      if |a| < |b| {
        assert b[..|a|] == [b[0]] + y[..|x|];
      }
    }
  }

  lemma SameHead(a: string, b: string, i: nat)
    requires i <= |a| && i <= |b| && a[..i] == b[..i]
    ensures i > 0 ==> a[0] == b[0]
  {
    if i > 0 {
      assert a[..i][0] == a[0] && b[..i][0] == b[0];
    }
  }

  lemma {:induction false} LessTotal(a: string, b: string)
    ensures Less(a, b) || Less(b, a) || a == b
    ensures !(Less(a, b) && Less(b, a)) && (Less(a, b) ==> a != b)
  {
    if a != "" && b != "" {
      LessTotal(a[1..], b[1..]);
      assert a == [a[0]] + a[1..] && b == [b[0]] + b[1..];
    }
  }

  lemma {:induction false} LessTransitive(a: string, b: string, c: string)
    requires Less(a, b) && Less(b, c)
    ensures Less(a, c)
  {
    if a != "" && a[0] == b[0] == c[0] {
      LessTransitive(a[1..], b[1..], c[1..]);
    }
  }

  ghost predicate Sorted(ms: seq<Member>) {
    forall i, j :: 0 <= i < j < |ms| ==> Less(ms[i].key, ms[j].key)
  }

  lemma {:induction false} InsertMembers(ms: seq<Member>, m: Member)
    ensures |Insert(ms, m)| == |ms| + 1
    ensures forall x :: x in Insert(ms, m) <==> x == m || x in ms
  {
    if ms != [] && !Less(m.key, ms[0].key) {
      InsertMembers(ms[1..], m);
      assert ms == [ms[0]] + ms[1..];
    }
  }

  lemma {:induction false} InsertSorted(ms: seq<Member>, m: Member)
    requires Sorted(ms) && forall x :: x in ms ==> x.key != m.key
    ensures Sorted(Insert(ms, m))
  {
    if ms != [] {
      var r := Insert(ms, m);
      if Less(m.key, ms[0].key) {
        forall i, j | 0 <= i < j < |r| ensures Less(r[i].key, r[j].key) {
          if i == 0 && j > 1 {
            LessTransitive(m.key, ms[0].key, ms[j - 1].key);
          }
        }
      } else {
        InsertSorted(ms[1..], m);
        InsertMembers(ms[1..], m);
        LessTotal(m.key, ms[0].key);
        forall i, j | 0 <= i < j < |r| ensures Less(r[i].key, r[j].key) {
          if i == 0 {
            assert r[j] in Insert(ms[1..], m);
            assert r[j] != m ==> exists k :: 1 <= k < |ms| && ms[k] == r[j];
          }
        }
      }
    }
  }

  lemma {:induction false} SortSorts(ms: seq<Member>)
    requires DistinctKeys(ms)
    ensures |Sort(ms)| == |ms| && Sorted(Sort(ms))
    ensures forall x :: x in Sort(ms) <==> x in ms
  {
    if ms != [] {
      SortSorts(ms[1..]);
      InsertMembers(Sort(ms[1..]), ms[0]);
      InsertSorted(Sort(ms[1..]), ms[0]);
      assert ms == [ms[0]] + ms[1..];
    }
  }

  /** The same members, each key before the next in the order of code points. */
  lemma SortCorrect(ms: seq<Member>)
    requires DistinctKeys(ms)
    ensures |Sort(ms)| == |ms| && multiset(Sort(ms)) == multiset(ms)
    ensures forall i, j :: 0 <= i < j < |ms| ==> Precedes(Sort(ms)[i].key, Sort(ms)[j].key)
  {
    hide Less, Precedes, Sort;
    var r := Sort(ms);
    SortSorts(ms);
    SortPermutes(ms);
    forall i, j | 0 <= i < j < |ms| ensures Precedes(r[i].key, r[j].key) {
      LessExact(r[i].key, r[j].key);
    }
  }

  lemma {:induction false} InsertPermutes(ms: seq<Member>, m: Member)
    ensures multiset(Insert(ms, m)) == multiset(ms) + multiset{m}
  {
    if ms != [] && !Less(m.key, ms[0].key) {
      InsertPermutes(ms[1..], m);
      assert ms == [ms[0]] + ms[1..];
    }
  }

  lemma {:induction false} SortPermutes(ms: seq<Member>)
    ensures multiset(Sort(ms)) == multiset(ms)
  {
    if ms != [] {
      SortPermutes(ms[1..]);
      InsertPermutes(Sort(ms[1..]), ms[0]);
      assert ms == [ms[0]] + ms[1..];
    }
  }

  /** A sorted member list is determined by its members. */
  lemma {:induction false} SortedUnique(a: seq<Member>, b: seq<Member>)
    requires Sorted(a) && Sorted(b) && |a| == |b| && forall x :: x in a <==> x in b
    ensures a == b
  {
    if a != [] {
      assert a[0] in b && b[0] in a;
      var i :| 0 <= i < |b| && b[i] == a[0];
      var j :| 0 <= j < |a| && a[j] == b[0];
      LessTotal(a[0].key, b[0].key);
      assert a[0] == b[0];
      forall x ensures x in a[1..] <==> x in b[1..] {
        SortedTail(a, x);
        SortedTail(b, x);
      }
      SortedUnique(a[1..], b[1..]);
      assert a == [a[0]] + a[1..] && b == [b[0]] + b[1..];
    }
  }

  lemma SortedTail(a: seq<Member>, x: Member)
    requires Sorted(a) && a != []
    ensures x in a[1..] <==> x in a && x != a[0]
  {
    forall i | 1 <= i < |a| ensures a[i] != a[0] {
      LessTotal(a[0].key, a[i].key);
    }
    if x in a && x != a[0] {
      var i :| 0 <= i < |a| && a[i] == x;
      assert a[1..][i - 1] == x;
    }
  }

  // ---------------------------------------------------------------- normal forms

  lemma {:induction false} NormalizeValid(j: Json)
    requires Valid(j)
    ensures Valid(Normalize(j))
  {
    match j
    case JArr(items) =>
      forall i | 0 <= i < |items| ensures Valid(NormalizeItems(items)[i]) {
        NormalizeValid(items[i]);
      }
    case JObj(ms) =>
      var ns := NormalizeMembers(ms);
      SortSorts(ns);
      forall x | x in ns ensures Valid(x.value) {
        var i :| 0 <= i < |ns| && ns[i] == x;
        NormalizeValid(ms[i].value);
      }
      SortedKeysDistinct(Sort(ns));
      assert forall i :: 0 <= i < |Sort(ns)| ==> Sort(ns)[i] in Sort(ns);
    case _ =>
  }

  lemma SortedKeysDistinct(ms: seq<Member>)
    requires Sorted(ms)
    ensures DistinctKeys(ms)
  {
    forall i, j | 0 <= i < j < |ms| ensures ms[i].key != ms[j].key {
      LessTotal(ms[i].key, ms[j].key);
    }
  }

  /** At every depth the keys of objects stand in the order of code points. */
  ghost predicate KeysAscend(j: Json) {
    match j
    case JArr(items) => forall i :: 0 <= i < |items| ==> KeysAscend(items[i])
    case JObj(ms) =>
      && (forall i, j :: 0 <= i < j < |ms| ==> Precedes(ms[i].key, ms[j].key))
      && forall i :: 0 <= i < |ms| ==> KeysAscend(ms[i].value)
    case _ => true
  }

  lemma {:induction false} NormalizeAscends(j: Json)
    requires Valid(j)
    ensures KeysAscend(Normalize(j)) && SameValue(j, Normalize(j))
  {
    hide Sort, Precedes, FloatText;
    match j
    case JArr(items) =>
      forall i | 0 <= i < |items| ensures KeysAscend(NormalizeItems(items)[i]) && SameValue(items[i], NormalizeItems(items)[i]) {
        NormalizeAscends(items[i]);
      }
    case JObj(ms) =>
      var ns := NormalizeMembers(ms);
      SortCorrect(ns);
      SortSorts(ns);
      hide Sorted;
      forall i | 0 <= i < |ms| ensures KeysAscend(ns[i].value) && SameValue(ms[i].value, ns[i].value) {
        NormalizeAscends(ms[i].value);
      }
      forall i | 0 <= i < |ns| ensures KeysAscend(Sort(ns)[i].value) {
        assert Sort(ns)[i] in ns;
      }
      forall i | 0 <= i < |ms|
        ensures exists k :: 0 <= k < |Sort(ns)| && ms[i].key == Sort(ns)[k].key && SameValue(ms[i].value, Sort(ns)[k].value)
      {
        assert ns[i] in Sort(ns);
        var k :| 0 <= k < |Sort(ns)| && Sort(ns)[k] == ns[i];
      }
    case _ =>
  }

  /** The canonical text is a text of the same value, and in it every object lists its keys in the order of code points. */
  lemma CanonicalReads(j: Json)
    requires Valid(j)
    ensures var r := ParseValue(CanonicalText(j));
            r.Some? && r.value.1 == "" && SameValue(j, r.value.0) && KeysAscend(r.value.0)
  {
    NormalizeValid(j);
    NormalizeAscends(j);
    ValueRoundTrip(Normalize(j), "");
    assert Print(Normalize(j)) + "" == Print(Normalize(j));
  }

  /** Equal values have one normal form: the order of keys does not matter, at any depth. */
  lemma {:induction false} SameNormalizes(x: Json, y: Json)
    requires Valid(x) && Valid(y) && SameValue(x, y)
    ensures Normalize(x) == Normalize(y)
  {
    hide Sort, FloatText;
    match (x, y)
    case (JArr(a), JArr(b)) =>
      forall i | 0 <= i < |a| ensures NormalizeItems(a)[i] == NormalizeItems(b)[i] {
        SameNormalizes(a[i], b[i]);
      }
      assert NormalizeItems(a) == NormalizeItems(b);
    case (JObj(a), JObj(b)) =>
      var c, d := NormalizeMembers(a), NormalizeMembers(b);
      forall m | m in c ensures m in d {
        var i :| 0 <= i < |c| && c[i] == m;
        var j :| 0 <= j < |b| && a[i].key == b[j].key && SameValue(a[i].value, b[j].value);
        SameNormalizes(a[i].value, b[j].value);
        assert d[j] == m;
      }
      SortAgree(c, d);
    case _ =>
  }

  /** Sorting depends on the members only, not on their order. */
  lemma SortAgree(c: seq<Member>, d: seq<Member>)
    requires DistinctKeys(c) && DistinctKeys(d) && |c| == |d| && forall m :: m in c ==> m in d
    ensures Sort(c) == Sort(d)
  {
    hide DistinctKeys, Sorted, Sort;
    SortSorts(c);
    SortSorts(d);
    Exhausted(c, d);
    SortedUnique(Sort(c), Sort(d));
  }

  lemma SortedAlike(c: seq<Member>, d: seq<Member>)
    requires DistinctKeys(c) && DistinctKeys(d) && Sort(c) == Sort(d)
    ensures |c| == |d| && forall m :: m in c ==> m in d
  {
    hide DistinctKeys, Sorted, Sort;
    SortSorts(c);
    SortSorts(d);
  }

  /** Among equally long lists with distinct keys, inclusion is equality of members. */
  lemma Exhausted(c: seq<Member>, d: seq<Member>)
    requires DistinctKeys(c) && DistinctKeys(d) && |c| == |d| && forall m :: m in c ==> m in d
    ensures forall m :: m in d ==> m in c
  {
    MembersCount(c);
    MembersCount(d);
    var x, y := Elements(c), Elements(d);
    assert x <= y;
    assert y == x + (y - x);
    assert |y| == |x| + |y - x|;
    assert y - x == {};
    assert forall m :: m in d ==> m in y && m in x;
  }

  lemma {:induction false} MembersCount(ms: seq<Member>)
    requires DistinctKeys(ms)
    ensures |Elements(ms)| == |ms|
  {
    if ms != [] {
      MembersCount(ms[1..]);
      assert ms == [ms[0]] + ms[1..];
      assert Elements(ms) == {ms[0]} + Elements(ms[1..]);
    }
  }

  /** One normal form means equal values. */
  lemma {:induction false} NormalizesSame(x: Json, y: Json)
    requires Valid(x) && Valid(y) && Normalize(x) == Normalize(y)
    ensures SameValue(x, y)
  {
    hide Sort, FloatText;
    match (x, y)
    case (JArr(a), JArr(b)) =>
      forall i | 0 <= i < |a| ensures SameValue(a[i], b[i]) {
        assert NormalizeItems(a)[i] == NormalizeItems(b)[i];
        NormalizesSame(a[i], b[i]);
      }
    case (JObj(a), JObj(b)) =>
      var c, d := NormalizeMembers(a), NormalizeMembers(b);
      SortedAlike(c, d);
      forall i | 0 <= i < |a|
        ensures exists j :: 0 <= j < |b| && a[i].key == b[j].key && SameValue(a[i].value, b[j].value)
      {
        assert c[i] in d;
        var j :| 0 <= j < |d| && d[j] == c[i];
        NormalizesSame(a[i].value, b[j].value);
      }
    case _ =>
  }

  /** Canonical bytes identify a value: equal bytes exactly for equal values. */
  lemma CanonicalInjective(x: Json, y: Json)
    requires Valid(x) && Valid(y)
    ensures CanonicalJson(x) == CanonicalJson(y) <==> SameValue(x, y)
  {
    if CanonicalJson(x) == CanonicalJson(y) {
      Utf8.EncodeInjective(CanonicalText(x), CanonicalText(y));
      NormalizeValid(x);
      NormalizeValid(y);
      PrintInjective(Normalize(x), Normalize(y));
      NormalizesSame(x, y);
    }
    if SameValue(x, y) {
      SameNormalizes(x, y);
    }
  }
}
