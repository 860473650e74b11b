/** Discovery of providers (packages/discovery/src/sip_discovery/directory.py). */
module Discovery {
  import opened Prelude
  import opened Json
  import opened Canonical
  import opened Documents

  /** Where to reach a provider, and its manifest. */
  datatype ProviderEntry = ProviderEntry(baseUrl: string, manifest: Json)

  /** A manifest field that holds a string. */
  function Text(manifest: Json, key: string): (t: Option<string>)
    ensures t.Some? <==> manifest.JObj? && Field(manifest, key).JStr?
    ensures t.Some? ==> Field(manifest, key) == JStr(t.value)
  {
    if manifest.JObj? && Get(manifest.members, key).Some? && Get(manifest.members, key).value.JStr?
    then Some(Get(manifest.members, key).value.s) else None
  }

  function Pubkey(e: ProviderEntry): (key: Option<string>)
    ensures e.manifest.JObj? && key.Some? ==> Field(e.manifest, "provider_pubkey") == JStr(key.value)
    ensures e.manifest.JObj? && Field(e.manifest, "provider_pubkey").JStr? ==> key.Some?
  {
    Text(e.manifest, "provider_pubkey")
  }

  /** published_at, empty when missing. */
  function Published(e: ProviderEntry): (time: string)
    ensures if e.manifest.JObj? && Field(e.manifest, "published_at").JStr?
            then Field(e.manifest, "published_at") == JStr(time) else time == ""
  {
    var t := Text(e.manifest, "published_at");
    if t.Some? then t.value else ""
  }

  predicate Serves(e: ProviderEntry, model: Option<string>): (serves: bool)
    ensures model.None? ==> serves
    ensures model.Some? && e.manifest.JObj? ==>
              (serves <==> Field(e.manifest, "models").JArr? && JStr(model.value) in Field(e.manifest, "models").items)
  {
    model.None? || JStr(model.value) in Models(e.manifest)
  }

  function Models(manifest: Json): seq<Json> {
    if manifest.JObj? && Get(manifest.members, "models").Some? && Get(manifest.members, "models").value.JArr?
    then Get(manifest.members, "models").value.items else []
  }

  // ---------------------------------------------------------------- deduplication

  /** Python's dictionary update: a known key keeps its place, and only a fresher entry replaces it. */
  function Upsert(d: seq<ProviderEntry>, p: ProviderEntry): seq<ProviderEntry> {
    if d == [] then [p]
    else if Pubkey(d[0]) == Pubkey(p) then
      if Less(Published(d[0]), Published(p)) then [p] + d[1..] else d
    else [d[0]] + Upsert(d[1..], p)
  }

  function Fold(d: seq<ProviderEntry>, xs: seq<ProviderEntry>, model: Option<string>): seq<ProviderEntry> {
    if xs == [] then d
    else
      var before, x := Fold(d, xs[..|xs| - 1], model), xs[|xs| - 1];
      if Serves(x, model) then Upsert(before, x) else before
  }

  function Dedupe(xs: seq<ProviderEntry>, model: Option<string>): seq<ProviderEntry> {
    Fold([], xs, model)
  }

  ghost predicate KeysDistinct(d: seq<ProviderEntry>) {
    forall i, j :: 0 <= i < j < |d| ==> Pubkey(d[i]) != Pubkey(d[j])
  }

  predicate HasKey(d: seq<ProviderEntry>, key: Option<string>) {
    exists i :: 0 <= i < |d| && Pubkey(d[i]) == key
  }

  /** _filter_and_dedupe: the dictionary `freshest` is its values in insertion order. */
  method FilterAndDedupe(providers: seq<ProviderEntry>, model: Option<string>) returns (freshest: seq<ProviderEntry>)
    ensures freshest == Dedupe(providers, model)
    ensures KeysDistinct(freshest)
    ensures forall x :: x in freshest <==> exists i :: Freshest(providers, model, i) && providers[i] == x
  {
    hide Upsert, Freshest, Serves, Precedes;
    freshest := [];
    for n := 0 to |providers|
      invariant freshest == Fold([], providers[..n], model)
    {
      var p := providers[n];
      assert providers[..n + 1][..n] == providers[..n];
      if !Serves(p, model) {
        continue;
      }
      ghost var before := freshest;
      var i := 0;
      while i < |freshest| && Pubkey(freshest[i]) != Pubkey(p)
        invariant 0 <= i <= |freshest| && freshest == before
        invariant forall k :: 0 <= k < i ==> Pubkey(freshest[k]) != Pubkey(p)
      {
        i := i + 1;
      }
      UpsertAt(freshest, p, i);
      if i == |freshest| {
        freshest := freshest + [p];
      } else if Less(Published(freshest[i]), Published(p)) {
        freshest := freshest[i := p];
      }
    }
    assert providers[..|providers|] == providers;
    DedupeFreshest(providers, model);
  }

  lemma {:induction false} UpsertAt(d: seq<ProviderEntry>, p: ProviderEntry, i: nat)
    requires i <= |d| && (forall k :: 0 <= k < i ==> Pubkey(d[k]) != Pubkey(p))
    requires i < |d| ==> Pubkey(d[i]) == Pubkey(p)
    ensures Upsert(d, p)
         == if i == |d| then d + [p] else if Less(Published(d[i]), Published(p)) then d[i := p] else d
  {
    hide Pubkey, Published, Less;
    if i > 0 {
      UpsertAt(d[1..], p, i - 1);
    }
  }

  // ---------------------------------------------------------------- laws of Upsert

  /** At most one key changes hands, and never to an older entry. */
  lemma {:induction false} UpsertShape(d: seq<ProviderEntry>, p: ProviderEntry)
    requires KeysDistinct(d)
    ensures KeysDistinct(Upsert(d, p))
    ensures forall key :: HasKey(Upsert(d, p), key) <==> HasKey(d, key) || key == Pubkey(p)
  {
    var i := if HasKey(d, Pubkey(p)) then FindKey(d, Pubkey(p)) else |d|;
    UpsertAt(d, p, i);
    var u := Upsert(d, p);
    forall key ensures HasKey(u, key) <==> HasKey(d, key) || key == Pubkey(p) {
      if HasKey(d, key) {
        var k :| 0 <= k < |d| && Pubkey(d[k]) == key;
        assert Pubkey(u[k]) == key;
      }
      if key == Pubkey(p) {
        assert Pubkey(u[i]) == key;
      }
    }
  }

  /** The place of a key, by search. */
  function FindKey(d: seq<ProviderEntry>, key: Option<string>): (i: nat)
    requires HasKey(d, key)
    ensures i < |d| && Pubkey(d[i]) == key && forall k :: 0 <= k < i ==> Pubkey(d[k]) != key
  {
    if Pubkey(d[0]) == key then 0
    else
      assert HasKey(d[1..], key) by {
        var k :| 0 <= k < |d| && Pubkey(d[k]) == key;
        assert d[1..][k - 1] == d[k];
      }
      1 + FindKey(d[1..], key)
  }

  function Fresher(x: ProviderEntry, y: ProviderEntry): ProviderEntry {
    if Less(Published(x), Published(y)) then y else x
  }

  /** Two updates of one key are one update with the fresher entry; the earlier one wins a tie. */
  lemma {:induction false} UpsertSameKey(d: seq<ProviderEntry>, x: ProviderEntry, y: ProviderEntry)
    requires Pubkey(x) == Pubkey(y)
    ensures Upsert(Upsert(d, x), y) == Upsert(d, Fresher(x, y))
  {
    if d != [] {
      if Pubkey(d[0]) == Pubkey(x) {
        var a, b, c := Published(d[0]), Published(x), Published(y);
        LessTotal(a, b);
        LessTotal(b, c);
        LessTotal(a, c);
        if Less(a, b) && Less(b, c) { LessTransitive(a, b, c); }
        if Less(b, a) && Less(a, c) { LessTransitive(b, a, c); }
        assert ([x] + d[1..])[1..] == d[1..];
      } else {
        UpsertSameKey(d[1..], x, y);
        assert ([d[0]] + Upsert(d[1..], x))[1..] == Upsert(d[1..], x);
      }
    }
  }

  /** Updates of different keys commute once one of the keys has its place. */
  lemma {:induction false} UpsertCommutes(d: seq<ProviderEntry>, x: ProviderEntry, y: ProviderEntry)
    requires Pubkey(x) != Pubkey(y) && HasKey(d, Pubkey(y))
    ensures Upsert(Upsert(d, x), y) == Upsert(Upsert(d, y), x)
  {
    var rest := d[1..];
    assert forall e: ProviderEntry :: ([e] + rest)[1..] == rest;
    if Pubkey(d[0]) != Pubkey(y) {
      var k :| 0 <= k < |d| && Pubkey(d[k]) == Pubkey(y);
      assert rest[k - 1] == d[k];
      assert ([d[0]] + Upsert(rest, y))[1..] == Upsert(rest, y);
      if Pubkey(d[0]) != Pubkey(x) {
        UpsertCommutes(rest, x, y);
        assert ([d[0]] + Upsert(rest, x))[1..] == Upsert(rest, x);
      } else {
        assert ([x] + Upsert(rest, y))[1..] == Upsert(rest, y);
      }
    } else {
      assert ([d[0]] + Upsert(rest, x))[1..] == Upsert(rest, x);
      assert ([y] + Upsert(rest, x))[1..] == Upsert(rest, x);
    }
  }

  // ---------------------------------------------------------------- staging

  /** Fold without a filter. */
  function Merge(d: seq<ProviderEntry>, e: seq<ProviderEntry>): seq<ProviderEntry> {
    if e == [] then d else Upsert(Merge(d, e[..|e| - 1]), e[|e| - 1])
  }

  lemma {:induction false} MergeHasKey(d: seq<ProviderEntry>, e: seq<ProviderEntry>, key: Option<string>)
    requires KeysDistinct(d) && HasKey(e, key)
    ensures KeysDistinct(Merge(d, e)) && HasKey(Merge(d, e), key)
  {
    MergeDistinct(d, e);
    var k :| 0 <= k < |e| && Pubkey(e[k]) == key;
    var front := e[..|e| - 1];
    MergeDistinct(d, front);
    UpsertShape(Merge(d, front), e[|e| - 1]);
    if k < |front| {
      assert Pubkey(front[k]) == key;
      MergeHasKey(d, front, key);
    }
  }

  lemma {:induction false} MergeDistinct(d: seq<ProviderEntry>, e: seq<ProviderEntry>)
    requires KeysDistinct(d)
    ensures KeysDistinct(Merge(d, e))
  {
    if e != [] {
      MergeDistinct(d, e[..|e| - 1]);
      UpsertShape(Merge(d, e[..|e| - 1]), e[|e| - 1]);
    }
  }

  /** An update of the last entry of a table. */
  lemma UpsertLast(front: seq<ProviderEntry>, x: ProviderEntry, y: ProviderEntry)
    requires KeysDistinct(front + [x]) && Pubkey(x) == Pubkey(y)
    ensures Upsert(front + [x], y) == front + [Fresher(x, y)]
  {
    hide Pubkey, Published, Less, Upsert;
    var e := front + [x];
    assert e[|front|] == x;
    UpsertAt(e, y, |front|);
  }

  /** An update further in front leaves the last entry alone. */
  lemma UpsertInner(front: seq<ProviderEntry>, x: ProviderEntry, y: ProviderEntry)
    requires HasKey(front, Pubkey(y))
    ensures Upsert(front + [x], y) == Upsert(front, y) + [x]
  {
    hide Pubkey, Published, Less, Upsert;
    var i := FindKey(front, Pubkey(y));
    assert forall k :: 0 <= k <= i ==> (front + [x])[k] == front[k];
    UpsertAt(front + [x], y, i);
    UpsertAt(front, y, i);
  }

  /** Merging an updated table is updating the merged one. */
  lemma {:induction false} MergeUpsert(d: seq<ProviderEntry>, e: seq<ProviderEntry>, y: ProviderEntry)
    requires KeysDistinct(d) && KeysDistinct(e)
    ensures Merge(d, Upsert(e, y)) == Upsert(Merge(d, e), y)
  {
    hide Pubkey, Published, Less, Upsert, Merge, Serves, Precedes, Fresher;
    if !HasKey(e, Pubkey(y)) {
      UpsertAt(e, y, |e|);
      MergeSnoc(d, e, y);
    } else {
      var front, x := e[..|e| - 1], e[|e| - 1];
      assert e == front + [x];
      MergeSnoc(d, front, x);
      if HasKey(front, Pubkey(y)) {
        var k := FindKey(front, Pubkey(y));
        assert Pubkey(e[k]) == Pubkey(y) != Pubkey(x);
        UpsertInner(front, x, y);
        MergeSnoc(d, Upsert(front, y), x);
        MergeUpsert(d, front, y);
        MergeHasKey(d, front, Pubkey(y));
        UpsertCommutes(Merge(d, front), x, y);
      } else {
        LastHasKey(front, x, Pubkey(y));
        UpsertLast(front, x, y);
        MergeSnoc(d, front, Fresher(x, y));
        UpsertSameKey(Merge(d, front), x, y);
      }
    }
  }

  lemma LastHasKey(front: seq<ProviderEntry>, x: ProviderEntry, key: Option<string>)
    requires HasKey(front + [x], key) && !HasKey(front, key)
    ensures Pubkey(x) == key
  {
    hide Pubkey;
    var k :| 0 <= k < |front + [x]| && Pubkey((front + [x])[k]) == key;
    assert k < |front| ==> Pubkey(front[k]) == key;
  }

  lemma MergeSnoc(d: seq<ProviderEntry>, e: seq<ProviderEntry>, x: ProviderEntry)
    ensures Merge(d, e + [x]) == Upsert(Merge(d, e), x)
  {
    assert (e + [x])[..|e|] == e;
  }

  lemma {:induction false} FoldDistinct(d: seq<ProviderEntry>, xs: seq<ProviderEntry>, model: Option<string>)
    requires KeysDistinct(d)
    ensures KeysDistinct(Fold(d, xs, model))
  {
    if xs != [] {
      FoldDistinct(d, xs[..|xs| - 1], model);
      UpsertShape(Fold(d, xs[..|xs| - 1], model), xs[|xs| - 1]);
    }
  }

  /** Feeding a batch in raw is feeding in its deduplication. */
  lemma {:induction false} FoldIsMerge(d: seq<ProviderEntry>, ys: seq<ProviderEntry>, model: Option<string>)
    requires KeysDistinct(d)
    ensures Fold(d, ys, model) == Merge(d, Dedupe(ys, model))
  {
    if ys != [] {
      var front := ys[..|ys| - 1];
      FoldIsMerge(d, front, model);
      FoldDistinct([], front, model);
      if Serves(ys[|ys| - 1], model) {
        MergeUpsert(d, Dedupe(front, model), ys[|ys| - 1]);
      }
    }
  }

  lemma {:induction false} FoldAppend(d: seq<ProviderEntry>, xs: seq<ProviderEntry>, ys: seq<ProviderEntry>, model: Option<string>)
    ensures Fold(d, xs + ys, model) == Fold(Fold(d, xs, model), ys, model)
  {
    if ys == [] {
      assert xs + ys == xs;
    } else {
      assert (xs + ys)[..|xs + ys| - 1] == xs + ys[..|ys| - 1];
      FoldAppend(d, xs, ys[..|ys| - 1], model);
    }
  }

  /** Everything a deduplication keeps serves the model, so filtering it again changes nothing. */
  lemma {:induction false} MergeIsFold(d: seq<ProviderEntry>, e: seq<ProviderEntry>, model: Option<string>)
    requires forall i :: 0 <= i < |e| ==> Serves(e[i], model)
    ensures Fold(d, e, model) == Merge(d, e)
  {
    if e != [] {
      MergeIsFold(d, e[..|e| - 1], model);
    }
  }

  lemma {:induction false} UpsertFrom(d: seq<ProviderEntry>, p: ProviderEntry, x: ProviderEntry)
    requires x in Upsert(d, p)
    ensures x in d || x == p
  {
    if d != [] && Pubkey(d[0]) != Pubkey(p) && x != d[0] {
      UpsertFrom(d[1..], p, x);
    }
  }

  lemma {:induction false} DedupeServes(xs: seq<ProviderEntry>, model: Option<string>, x: ProviderEntry)
    requires x in Dedupe(xs, model)
    ensures x in xs && Serves(x, model)
  {
    var front, last := xs[..|xs| - 1], xs[|xs| - 1];
    if Serves(last, model) {
      UpsertFrom(Dedupe(front, model), last, x);
    }
    if x in Dedupe(front, model) {
      DedupeServes(front, model, x);
    }
  }

  /** Deduplication in stages is deduplication at once, order and ties included. */
  lemma DedupeInStages(xs: seq<ProviderEntry>, ys: seq<ProviderEntry>, model: Option<string>)
    ensures Dedupe(xs + ys, model) == Dedupe(Dedupe(xs, model) + Dedupe(ys, model), model)
  {
    var a, b := Dedupe(xs, model), Dedupe(ys, model);
    forall i | 0 <= i < |a| ensures Serves(a[i], model) { DedupeServes(xs, model, a[i]); }
    forall i | 0 <= i < |b| ensures Serves(b[i], model) { DedupeServes(ys, model, b[i]); }
    FoldAppend([], xs, ys, model);
    FoldDistinct([], xs, model);
    FoldIsMerge(a, ys, model);
    FoldAppend([], a, b, model);
    MergeIsFold([], a, model);
    FoldIsMerge([], xs, model);
    MergeIsFold(Dedupe(a, model), b, model);
  }

  // ---------------------------------------------------------------- freshness

  /** By the order the loop compares with, xs[i] is a newest entry of its key serving the model, and the first such entry. */
  ghost predicate Newest(xs: seq<ProviderEntry>, model: Option<string>, i: int) {
    && 0 <= i < |xs| && Serves(xs[i], model)
    && (forall j :: 0 <= j < |xs| && Serves(xs[j], model) && Pubkey(xs[j]) == Pubkey(xs[i]) ==>
          !Less(Published(xs[i]), Published(xs[j])))
    && (forall j :: 0 <= j < i && Serves(xs[j], model) && Pubkey(xs[j]) == Pubkey(xs[i]) ==>
          Less(Published(xs[j]), Published(xs[i])))
  }

  lemma {:induction false} DedupeNewest(xs: seq<ProviderEntry>, model: Option<string>)
    ensures KeysDistinct(Dedupe(xs, model))
    ensures forall x :: x in Dedupe(xs, model) ==> exists i :: Newest(xs, model, i) && xs[i] == x
    ensures forall j :: 0 <= j < |xs| && Serves(xs[j], model) ==> HasKey(Dedupe(xs, model), Pubkey(xs[j]))
  {
    FoldDistinct([], xs, model);
    if xs != [] {
      var front, last := xs[..|xs| - 1], xs[|xs| - 1];
      DedupeNewest(front, model);
      UpsertShape(Dedupe(front, model), last);
      forall x | x in Dedupe(xs, model) ensures exists i :: Newest(xs, model, i) && xs[i] == x {
        NewestStep(xs, model, x);
      }
      forall j | 0 <= j < |xs| && Serves(xs[j], model) ensures HasKey(Dedupe(xs, model), Pubkey(xs[j])) {
        assert j < |front| ==> front[j] == xs[j];
      }
    }
  }

  lemma NewestStep(xs: seq<ProviderEntry>, model: Option<string>, x: ProviderEntry)
    requires xs != [] && x in Dedupe(xs, model)
    requires var front := xs[..|xs| - 1];
             && KeysDistinct(Dedupe(front, model))
             && (forall y :: y in Dedupe(front, model) ==> exists i :: Newest(front, model, i) && front[i] == y)
             && (forall j :: 0 <= j < |front| && Serves(front[j], model) ==> HasKey(Dedupe(front, model), Pubkey(front[j])))
    ensures exists i :: Newest(xs, model, i) && xs[i] == x
  {
    hide Newest, Serves, Pubkey, Published, Less, Upsert;
    var front, n := xs[..|xs| - 1], |xs| - 1;
    var last, d := xs[n], Dedupe(front, model);
    if Serves(last, model) {
      var k := if HasKey(d, Pubkey(last)) then FindKey(d, Pubkey(last)) else |d|;
      UpsertAt(d, last, k);
      if x in d && (Pubkey(x) == Pubkey(last) ==> !Less(Published(x), Published(last))) {
        KeepNewest(xs, model, x);
      } else if k == |d| {
        assert x == last;
        FirstOfKey(xs, model);
      } else {
        assert d[k] in d;
        var i := NewestWitness(front, model, d[k]);
        assert x == last && Less(Published(d[k]), Published(last));
        NewNewest(xs, model, i);
      }
    } else {
      KeepNewest(xs, model, x);
    }
  }

  lemma NewestWitness(xs: seq<ProviderEntry>, model: Option<string>, x: ProviderEntry) returns (i: nat)
    requires exists i :: Newest(xs, model, i) && xs[i] == x
    ensures i < |xs| && Newest(xs, model, i) && xs[i] == x
  {
    i :| Newest(xs, model, i) && xs[i] == x;
  }

  /** A last element whose key is new is the freshest of its key. */
  lemma FirstOfKey(xs: seq<ProviderEntry>, model: Option<string>)
    requires xs != [] && Serves(xs[|xs| - 1], model)
    requires forall j :: 0 <= j < |xs| - 1 && Serves(xs[j], model) ==> Pubkey(xs[j]) != Pubkey(xs[|xs| - 1])
    ensures Newest(xs, model, |xs| - 1)
  {
    var p := Published(xs[|xs| - 1]);
    LessTotal(p, p);
    hide Serves, Pubkey, Published, Less;
  }

  /** An entry kept over the last element stays freshest. */
  lemma KeepNewest(xs: seq<ProviderEntry>, model: Option<string>, x: ProviderEntry)
    requires xs != []
    requires var front, last := xs[..|xs| - 1], xs[|xs| - 1];
             && (exists i :: Newest(front, model, i) && front[i] == x)
             && (Serves(last, model) && Pubkey(last) == Pubkey(x) ==> !Less(Published(x), Published(last)))
    ensures exists i :: Newest(xs, model, i) && xs[i] == x
  {
    hide Serves, Pubkey, Published, Less;
    var front := xs[..|xs| - 1];
    var i :| Newest(front, model, i) && front[i] == x;
    assert forall j :: 0 <= j < |front| ==> xs[j] == front[j];
    assert Newest(xs, model, i);
  }

  /** A last element fresher than the previous best becomes the best. */
  lemma NewNewest(xs: seq<ProviderEntry>, model: Option<string>, i: nat)
    requires xs != [] && Newest(xs[..|xs| - 1], model, i)
    requires var last := xs[|xs| - 1];
             Serves(last, model) && Pubkey(xs[i]) == Pubkey(last) && Less(Published(xs[i]), Published(last))
    ensures Newest(xs, model, |xs| - 1)
  {
    var n, front := |xs| - 1, xs[..|xs| - 1];
    forall j | 0 <= j < n && Serves(xs[j], model) && Pubkey(xs[j]) == Pubkey(xs[n])
      ensures Less(Published(xs[j]), Published(xs[n]))
    {
      assert front[j] == xs[j] && front[i] == xs[i];
      LessTotal(Published(xs[i]), Published(xs[j]));
      if Less(Published(xs[j]), Published(xs[i])) {
        LessTransitive(Published(xs[j]), Published(xs[i]), Published(xs[n]));
      }
    }
    forall j | 0 <= j <= n && Serves(xs[j], model) && Pubkey(xs[j]) == Pubkey(xs[n])
      ensures !Less(Published(xs[n]), Published(xs[j]))
    {
      LessTotal(Published(xs[n]), Published(xs[j]));
    }
  }

  /**
   * xs[i] is the first of the freshest entries of its key that serve the model: none was published later
   * in the order of code points, and every one before it was published earlier.
   */
  ghost predicate Freshest(xs: seq<ProviderEntry>, model: Option<string>, i: int) {
    && 0 <= i < |xs| && Serves(xs[i], model)
    && forall j :: 0 <= j < |xs| && Serves(xs[j], model) && Pubkey(xs[j]) == Pubkey(xs[i]) ==>
         && !Precedes(Published(xs[i]), Published(xs[j]))
         && (j < i ==> Precedes(Published(xs[j]), Published(xs[i])))
  }

  lemma NewestIsFreshest(xs: seq<ProviderEntry>, model: Option<string>, i: int)
    ensures Newest(xs, model, i) <==> Freshest(xs, model, i)
  {
    hide Serves, Pubkey, Published, Less, Precedes;
    if 0 <= i < |xs| {
      forall j | 0 <= j < |xs|
        ensures Less(Published(xs[i]), Published(xs[j])) == Precedes(Published(xs[i]), Published(xs[j]))
        ensures Less(Published(xs[j]), Published(xs[i])) == Precedes(Published(xs[j]), Published(xs[i]))
      {
        LessExact(Published(xs[i]), Published(xs[j]));
        LessExact(Published(xs[j]), Published(xs[i]));
      }
    }
  }

  /** Two first freshest entries of one key are the same entry. */
  lemma FreshestOnce(xs: seq<ProviderEntry>, model: Option<string>, i: int, j: int)
    requires Freshest(xs, model, i) && Freshest(xs, model, j) && Pubkey(xs[i]) == Pubkey(xs[j])
    ensures i == j
  {
    hide Serves, Pubkey, Published, Precedes;
  }

  /** Deduplication keeps exactly the first freshest entry of every key that serves the model. */
  lemma DedupeFreshest(xs: seq<ProviderEntry>, model: Option<string>)
    ensures KeysDistinct(Dedupe(xs, model))
    ensures forall x :: x in Dedupe(xs, model) <==> exists i :: Freshest(xs, model, i) && xs[i] == x
    ensures forall j :: 0 <= j < |xs| && Serves(xs[j], model) ==> HasKey(Dedupe(xs, model), Pubkey(xs[j]))
  {
    hide Serves, Pubkey, Published, Dedupe, Newest, Precedes;
    DedupeNewest(xs, model);
    forall x | x in Dedupe(xs, model) ensures exists i :: Freshest(xs, model, i) && xs[i] == x {
      var i := NewestWitness(xs, model, x);
      NewestIsFreshest(xs, model, i);
    }
    forall i | Freshest(xs, model, i) ensures xs[i] in Dedupe(xs, model) {
      FreshestKept(xs, model, i);
    }
  }

  lemma FreshestKept(xs: seq<ProviderEntry>, model: Option<string>, i: int)
    requires Freshest(xs, model, i)
    ensures xs[i] in Dedupe(xs, model)
  {
    hide Serves, Pubkey, Published, Dedupe, Newest, Precedes;
    var d := Dedupe(xs, model);
    DedupeNewest(xs, model);
    var k := FindKey(d, Pubkey(xs[i]));
    assert d[k] in d;
    var j := NewestWitness(xs, model, d[k]);
    NewestIsFreshest(xs, model, j);
    FreshestOnce(xs, model, i, j);
  }

  /** The place of the first entry of a key that serves the model; the end when there is none. */
  function FirstPlace(xs: seq<ProviderEntry>, model: Option<string>, key: Option<string>): (i: nat)
    ensures i <= |xs| && (i < |xs| ==> Serves(xs[i], model) && Pubkey(xs[i]) == key)
    ensures forall j :: 0 <= j < i ==> !(Serves(xs[j], model) && Pubkey(xs[j]) == key)
  {
    if xs == [] || (Serves(xs[0], model) && Pubkey(xs[0]) == key) then 0 else 1 + FirstPlace(xs[1..], model, key)
  }

  lemma FirstPlaceFront(xs: seq<ProviderEntry>, model: Option<string>, key: Option<string>)
    requires xs != []
    ensures var front, last := xs[..|xs| - 1], xs[|xs| - 1];
            FirstPlace(xs, model, key)
            == if FirstPlace(front, model, key) < |front| then FirstPlace(front, model, key)
               else if Serves(last, model) && Pubkey(last) == key then |front| else |xs|
  {
    hide Serves, Pubkey, FirstPlace;
    var front := xs[..|xs| - 1];
    assert forall j :: 0 <= j < |front| ==> front[j] == xs[j];
  }

  /** The entries of d stand in the order in which their keys first occur. */
  ghost predicate InOrder(d: seq<ProviderEntry>, xs: seq<ProviderEntry>, model: Option<string>) {
    && (forall a :: 0 <= a < |d| ==> FirstPlace(xs, model, Pubkey(d[a])) < |xs|)
    && forall a, b :: 0 <= a < b < |d| ==> FirstPlace(xs, model, Pubkey(d[a])) < FirstPlace(xs, model, Pubkey(d[b]))
  }

  lemma OrderKept(d: seq<ProviderEntry>, e: seq<ProviderEntry>, xs: seq<ProviderEntry>, model: Option<string>)
    requires xs != [] && InOrder(d, xs[..|xs| - 1], model)
    requires |e| == |d| && forall a :: 0 <= a < |d| ==> Pubkey(e[a]) == Pubkey(d[a])
    ensures InOrder(e, xs, model)
  {
    hide Serves, Pubkey, FirstPlace;
    forall a | 0 <= a < |d|
      ensures FirstPlace(xs, model, Pubkey(e[a])) == FirstPlace(xs[..|xs| - 1], model, Pubkey(d[a]))
    {
      FirstPlaceFront(xs, model, Pubkey(d[a]));
    }
  }

  lemma OrderExtended(d: seq<ProviderEntry>, xs: seq<ProviderEntry>, model: Option<string>)
    requires xs != [] && InOrder(d, xs[..|xs| - 1], model) && Serves(xs[|xs| - 1], model)
    requires FirstPlace(xs[..|xs| - 1], model, Pubkey(xs[|xs| - 1])) == |xs| - 1
    ensures InOrder(d + [xs[|xs| - 1]], xs, model)
  {
    hide Serves, Pubkey, FirstPlace;
    OrderKept(d, d, xs, model);
    FirstPlaceFront(xs, model, Pubkey(xs[|xs| - 1]));
    forall a | 0 <= a < |d| ensures FirstPlace(xs, model, Pubkey(d[a])) < |xs| - 1 {
      FirstPlaceFront(xs, model, Pubkey(d[a]));
    }
  }

  /** Deduplication is in the order in which keys first occur, as Python's dictionary is. */
  lemma {:induction false} DedupeOrder(xs: seq<ProviderEntry>, model: Option<string>)
    ensures InOrder(Dedupe(xs, model), xs, model)
  {
    hide Serves, Pubkey, Published, Upsert, FirstPlace, InOrder;
    if xs == [] {
      NothingInOrder(xs, model);
    } else {
      var front, last := xs[..|xs| - 1], xs[|xs| - 1];
      DedupeOrder(front, model);
      var d := Dedupe(front, model);
      var i := if HasKey(d, Pubkey(last)) then FindKey(d, Pubkey(last)) else |d|;
      UpsertAt(d, last, i);
      if Serves(last, model) && i == |d| {
        DedupeNewest(front, model);
        OrderExtended(d, xs, model);
      } else {
        OrderKept(d, Dedupe(xs, model), xs, model);
      }
    }
  }

  lemma NothingInOrder(xs: seq<ProviderEntry>, model: Option<string>)
    ensures InOrder([], xs, model)
  {
  }

  // ---------------------------------------------------------------- discover

  /** How manifests are checked: the JSON schema and Ed25519, as oracles. */
  datatype Trust = Trust(schema: Json -> bool, verify: Verifier)

  /** Whatever else the schema demands: the key and the signature are plain strings. */
  predicate SchemaOk(t: Trust, manifest: Json) {
    t.schema(manifest) && Field(manifest, "provider_pubkey").JStr? && Field(manifest, "signature").JStr?
  }

  /** verify_provider_manifest: the signature is looked at only once the schema is satisfied. */
  function VerifyManifest(t: Trust, manifest: Json): (c: Check)
    ensures c.Passes? ==> Text(manifest, "provider_pubkey").Some?
  {
    if SchemaOk(t, manifest) then CheckDocument(manifest, t.verify, "provider_pubkey", "signature") else Fails
  }

  /** It satisfies the schema and cannot be encoded: verifying it raises. */
  predicate Chokes(t: Trust, manifest: Json) {
    SchemaOk(t, manifest) && (manifest.JLone? || !Signable(manifest.members, "signature"))
  }

  lemma ManifestRaises(t: Trust, manifest: Json)
    ensures VerifyManifest(t, manifest).Raises? <==> Chokes(t, manifest)
  {
  }

  /** A manifest verifies exactly when it follows the schema and its key signed everything but the signature. */
  lemma VerifyManifestExact(t: Trust, manifest: Json)
    ensures VerifyManifest(t, manifest).Passes? <==>
            && t.schema(manifest) && manifest.JObj?
            && Field(manifest, "provider_pubkey").JStr? && Field(manifest, "signature").JStr?
            && Signable(manifest.members, "signature")
            && t.verify(Field(manifest, "provider_pubkey").s, SigningBytes(manifest.members, "signature"),
                        Field(manifest, "signature").s)
    ensures VerifyManifest(t, manifest).Raises? <==>
            && t.schema(manifest) && Field(manifest, "provider_pubkey").JStr? && Field(manifest, "signature").JStr?
            && (manifest.JLone? || !Signable(manifest.members, "signature"))
  {
  }

  /** The schema bounds a price from below, and NaN is below nothing. */
  lemma NaNPriceChokes(t: Trust, manifest: Json, unit: string)
    requires SchemaOk(t, manifest) && manifest.JObj?
    requires Member("pricing", JObj([Member("unit", JStr(unit)), Member("input_per_1m", JFloat("NaN"))])) in manifest.members
    ensures Chokes(t, manifest)
  {
    var pricing := JObj([Member("unit", JStr(unit)), Member("input_per_1m", JFloat("NaN"))]);
    assert !Valid(pricing.members[1].value) by {
      assert "NaN"[0] == 'N';
    }
    assert "pricing"[0] == 'p' && "signature"[0] == 's';
    UnsignedExact(manifest.members, "signature");
    var u := Unsigned(manifest.members, "signature");
    var i :| 0 <= i < |u| && u[i] == Member("pricing", pricing);
    assert !Valid(u[i].value);
  }

  /** A manifest a directory answer may surface: verified, with a signed address. */
  predicate Routable(manifest: Json, t: Trust) {
    VerifyManifest(t, manifest).Passes? && Text(manifest, "manifest_uri").Some? && Text(manifest, "manifest_uri").value != ""
  }

  /** The routable manifests, each at its signed address. */
  function Surfaced(manifests: seq<Json>, t: Trust): seq<ProviderEntry> {
    if manifests == [] then []
    else
      var m := manifests[|manifests| - 1];
      Surfaced(manifests[..|manifests| - 1], t)
      + if Routable(m, t) then [ProviderEntry(Text(m, "manifest_uri").value, m)] else []
  }

  predicate SomeChokes(manifests: seq<Json>, t: Trust) {
    exists i :: 0 <= i < |manifests| && Chokes(t, manifests[i])
  }

  /** What a directory gives for the manifests it holds; None when discovery raises. */
  function Discovered(manifests: seq<Json>, t: Trust, model: Option<string>): Option<seq<ProviderEntry>> {
    if SomeChokes(manifests, t) then None else Some(Dedupe(Surfaced(manifests, t), model))
  }

  /** What a relay's reply offers; None when it cannot be iterated over. Keys and characters are no manifests. */
  function Offered(payload: Json): Option<seq<Json>> {
    var ms := Dict(payload);
    if ms.None? then Some([])
    else
      match Get(ms.value, "providers")
      case None => Some([])
      case Some(JArr(items)) => Some(items)
      case Some(JObj(_)) => Some([])
      case Some(JStr(_)) => Some([])
      case Some(JLone(_)) => Some([])
      case _ => None
  }

  /** What the entries of a directory file hold; anything but an object is skipped later. */
  function Stored(entries: seq<Member>): seq<Json> {
    seq(|entries|, i requires 0 <= i < |entries| => Field(entries[i].value, "manifest"))
  }

  /** What a directory gives when it is asked: the body of a relay's answer, or the object in a file. */
  datatype Source = NoReply | Relay(payload: Json) | File(entries: seq<Member>)

  /** The manifests received; None when the exchange or the iteration raises. */
  function Received(source: Source): Option<seq<Json>> {
    match source
    case NoReply => None
    case Relay(payload) => Offered(payload)
    case File(entries) => Some(Stored(entries))
  }

  function Answer(source: Source, t: Trust, model: Option<string>): Option<seq<ProviderEntry>> {
    if Received(source).None? then None else Discovered(Received(source).value, t, model)
  }

  lemma {:induction false} SurfacedExact(manifests: seq<Json>, t: Trust)
    ensures forall e :: e in Surfaced(manifests, t) <==>
              e.manifest in manifests && Routable(e.manifest, t) && Some(e.baseUrl) == Text(e.manifest, "manifest_uri")
  {
    hide Routable, Text;
    if manifests != [] {
      var front, m := manifests[..|manifests| - 1], manifests[|manifests| - 1];
      SurfacedExact(front, t);
      assert manifests == front + [m];
      RoutableText(m, t);
    }
  }

  lemma RoutableText(m: Json, t: Trust)
    ensures Routable(m, t) ==> Text(m, "manifest_uri").Some?
  {
  }

  /** What can be said of a discovery that ends. */
  lemma DiscoveredExact(manifests: seq<Json>, t: Trust, model: Option<string>)
    requires !SomeChokes(manifests, t)
    ensures var found := Discovered(manifests, t, model).value;
            && KeysDistinct(found)
            && (forall e :: e in found ==>
                  && e.manifest in manifests && Routable(e.manifest, t) && Serves(e, model)
                  && Some(e.baseUrl) == Text(e.manifest, "manifest_uri"))
            && (forall m :: m in manifests && Routable(m, t) && Serves(ProviderEntry("", m), model) ==>
                  HasKey(found, Text(m, "provider_pubkey")))
  {
    hide Routable;
    var providers, found := Surfaced(manifests, t), Discovered(manifests, t, model).value;
    SurfacedExact(manifests, t);
    DedupeFreshest(providers, model);
    forall e | e in found ensures e in providers && Serves(e, model) {
      DedupeServes(providers, model, e);
    }
    forall m | m in manifests && Routable(m, t) && Serves(ProviderEntry("", m), model)
      ensures HasKey(found, Text(m, "provider_pubkey"))
    {
      RoutableText(m, t);
      var e := ProviderEntry(Text(m, "manifest_uri").value, m);
      assert e in providers;
      var j :| 0 <= j < |providers| && providers[j] == e;
      assert Serves(providers[j], model);
    }
  }

  /**
   * HttpDirectory.discover and FileDirectory.discover. When manifests are received it raises, and every
   * provider is lost, exactly if one of them chokes verification. Otherwise nothing unverified or
   * unsigned gets through, each endpoint is the signed one, and no serving key is missing.
   */
  method Discover(source: Source, t: Trust, model: Option<string>) returns (found: Option<seq<ProviderEntry>>)
    ensures found == Answer(source, t, model)
    ensures found.None? <==> Received(source).None? || exists m :: m in Received(source).value && Chokes(t, m)
    ensures found.Some? ==>
              && KeysDistinct(found.value)
              && (forall e :: e in found.value ==>
                    && e.manifest in Received(source).value && Routable(e.manifest, t) && Serves(e, model)
                    && Some(e.baseUrl) == Text(e.manifest, "manifest_uri"))
              && (forall m :: m in Received(source).value && Routable(m, t) && Serves(ProviderEntry("", m), model) ==>
                    HasKey(found.value, Text(m, "provider_pubkey")))
  {
    hide Chokes, VerifyManifest, Text, Serves, Received, Dedupe;
    var received := Received(source);
    if received.None? {
      return None;
    }
    var manifests := received.value;
    var providers: seq<ProviderEntry> := [];
    for i := 0 to |manifests|
      invariant providers == Surfaced(manifests[..i], t)
      invariant forall j :: 0 <= j < i ==> !Chokes(t, manifests[j])
    {
      var m := manifests[i];
      assert manifests[..i + 1][..i] == manifests[..i];
      ManifestRaises(t, m);
      NotADict(m, t);
      if Dict(m).None? {
        continue;
      }
      var verdict := VerifyManifest(t, m);
      if verdict.Raises? {
        assert m in manifests;
        return None;
      }
      if verdict.Fails? {
        continue;
      }
      var uri := Text(m, "manifest_uri");
      if uri.None? || uri.value == "" {
        continue;
      }
      providers := providers + [ProviderEntry(uri.value, m)];
    }
    assert manifests[..|manifests|] == manifests;
    DiscoveredExact(manifests, t, model);
    var freshest := FilterAndDedupe(providers, model);
    return Some(freshest);
  }

  /**
   * What was announced is found: a routable manifest stored in a directory file under its key, or listed by a
   * relay, gives an entry for its key to everybody who asks for a model it serves, unless discovery raises.
   */
  lemma AnnouncedIsFound(source: Source, m: Json, t: Trust, model: Option<string>)
    requires Routable(m, t) && Serves(ProviderEntry("", m), model) && Answer(source, t, model).Some?
    requires match source
             case NoReply => false
             case File(entries) => exists e :: e in entries && e.value == JObj([Member("manifest", m)])
             case Relay(payload) =>
               exists items, more :: payload == JObj([Member("providers", JArr(items))] + more) && m in items
    ensures HasKey(Answer(source, t, model).value, Text(m, "provider_pubkey"))
  {
    hide Routable, Serves, Text, SomeChokes, Dedupe, Surfaced;
    match source {
      case File(entries) =>
        var e :| e in entries && e.value == JObj([Member("manifest", m)]);
        var i :| 0 <= i < |entries| && entries[i] == e;
        FieldAt([Member("manifest", m)], 0);
        assert Stored(entries)[i] == m;
      case Relay(payload) =>
        var items, more :| payload == JObj([Member("providers", JArr(items))] + more) && m in items;
        GetAt([Member("providers", JArr(items))] + more, 0);
      case _ =>
    }
    assert m in Received(source).value;
    DiscoveredExact(Received(source).value, t, model);
  }

  lemma NotADict(m: Json, t: Trust)
    ensures Dict(m).None? ==> VerifyManifest(t, m).Fails? && !Chokes(t, m)
  {
  }
}
