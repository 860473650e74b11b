/** Turning untrusted provider input into routing entries (apps/openai-proxy/src/sip_openai_proxy/sources.py). */
module Sources {
  import opened Prelude
  import opened Json
  import opened Discovery

  /** How manifests are verified, and is_safe_remote_url as an oracle. */
  datatype Oracle = Oracle(trust: Trust, safe: string -> bool)

  datatype Refusal = BadSignature | NoUri | UrlMismatch | UnsafeUrl | EndpointPinned

  /** Crashed is an exception other than UntrustedProvider. */
  datatype Result<+T> = Success(value: T) | Untrusted(why: Refusal) | Crashed

  /** trusted_provider_entry */
  function TrustedEntry(o: Oracle, manifest: Json, baseUrl: Option<string>, requireSafe: bool): Result<ProviderEntry> {
    var uri := Text(manifest, "manifest_uri");
    var verified := VerifyManifest(o.trust, manifest);
    if verified.Raises? then Crashed
    else if verified.Fails? then Untrusted(BadSignature)
    else if uri.None? || uri.value == "" then Untrusted(NoUri)
    else if baseUrl.Some? && baseUrl.value != uri.value then Untrusted(UrlMismatch)
    else if requireSafe && !o.safe(uri.value) then Untrusted(UnsafeUrl)
    else Success(ProviderEntry(uri.value, manifest))
  }

  /** Each outcome says what the manifest is like. */
  lemma TrustedEntryExact(o: Oracle, manifest: Json, baseUrl: Option<string>, requireSafe: bool)
    ensures var t, verified := TrustedEntry(o, manifest, baseUrl, requireSafe), VerifyManifest(o.trust, manifest);
            var uri := if Text(manifest, "manifest_uri").Some? then Text(manifest, "manifest_uri").value else "";
            var moved := baseUrl.Some? && baseUrl.value != uri;
            && (t.Crashed? <==> Chokes(o.trust, manifest))
            && (t == Success(ProviderEntry(uri, manifest)) <==>
                  verified.Passes? && uri != "" && !moved && (requireSafe ==> o.safe(uri)))
            && (t.Success? ==> t.value == ProviderEntry(uri, manifest))
            && (t == Untrusted(BadSignature) <==> verified.Fails?)
            && (t == Untrusted(NoUri) <==> verified.Passes? && uri == "")
            && (t == Untrusted(UrlMismatch) <==> verified.Passes? && uri != "" && moved)
            && (t == Untrusted(UnsafeUrl) <==> verified.Passes? && uri != "" && !moved && requireSafe && !o.safe(uri))
  {
    ManifestRaises(o.trust, manifest);
    hide VerifyManifest, Chokes;
  }

  function WithoutKey(existing: seq<ProviderEntry>, key: Option<string>): seq<ProviderEntry> {
    if existing == [] then []
    else if Pubkey(existing[0]) == key then WithoutKey(existing[1..], key)
    else [existing[0]] + WithoutKey(existing[1..], key)
  }

  /** Some other key already holds the endpoint. */
  predicate PinnedElsewhere(existing: seq<ProviderEntry>, e: ProviderEntry) {
    exists i :: 0 <= i < |existing| && existing[i].baseUrl == e.baseUrl && Pubkey(existing[i]) != Pubkey(e)
  }

  /** The first entry at the same endpoint that does not name the same key. */
  function FirstClash(existing: seq<ProviderEntry>, e: ProviderEntry): (i: nat)
    ensures i <= |existing|
    ensures i < |existing| ==> existing[i].baseUrl == e.baseUrl && Pubkey(existing[i]) != Pubkey(e)
    ensures i == |existing| <==> !PinnedElsewhere(existing, e)
  {
    if existing == [] || (existing[0].baseUrl == e.baseUrl && Pubkey(existing[0]) != Pubkey(e)) then 0
    else
      assert existing == [existing[0]] + existing[1..];
      1 + FirstClash(existing[1..], e)
  }

  /** Looking up the key of some entry raises. */
  predicate Keyless(existing: seq<ProviderEntry>) {
    exists i :: 0 <= i < |existing| && Pubkey(existing[i]).None?
  }

  /** merge_provider */
  function MergeProvider(existing: seq<ProviderEntry>, e: ProviderEntry): Result<seq<ProviderEntry>> {
    var clash := FirstClash(existing, e);
    if clash < |existing| then (if Pubkey(existing[clash]).None? then Crashed else Untrusted(EndpointPinned))
    else if Keyless(existing) then Crashed
    else Success(WithoutKey(existing, Pubkey(e)) + [e])
  }

  /** An entry that may be routed to: verified, and bound to its own signed, safe address. */
  predicate Trusted(o: Oracle, e: ProviderEntry) {
    && VerifyManifest(o.trust, e.manifest).Passes? && Text(e.manifest, "manifest_uri") == Some(e.baseUrl)
    && e.baseUrl != "" && o.safe(e.baseUrl)
  }

  /** One key per endpoint and one endpoint per key, all trusted. */
  ghost predicate Pinned(o: Oracle, ps: seq<ProviderEntry>) {
    && (forall i :: 0 <= i < |ps| ==> Trusted(o, ps[i]))
    && (forall i, j :: 0 <= i < j < |ps| ==> Pubkey(ps[i]) != Pubkey(ps[j]) && ps[i].baseUrl != ps[j].baseUrl)
  }

  datatype Warning = Dropped(baseUrl: string, why: Refusal) | Unreachable(spec: string)

  datatype Building = Building(pinned: seq<ProviderEntry>, warnings: seq<Warning>)

  /** _try_add for an entry from the configuration or a directory. */
  function TryAdd(o: Oracle, b: Building, e: ProviderEntry): Building {
    match TrustedEntry(o, e.manifest, Some(e.baseUrl), true)
    case Crashed => b
    case Untrusted(why) => b.(warnings := b.warnings + [Dropped(e.baseUrl, why)])
    case Success(entry) =>
      match MergeProvider(b.pinned, entry)
      case Crashed => b
      case Untrusted(why) => b.(warnings := b.warnings + [Dropped(e.baseUrl, why)])
      case Success(merged) => b.(pinned := merged)
  }

  function AddAll(o: Oracle, b: Building, es: seq<ProviderEntry>): Building {
    if es == [] then b else TryAdd(o, AddAll(o, b, es[..|es| - 1]), es[|es| - 1])
  }

  /** What each directory answered; None when it could not be reached. */
  type Answers = string -> Option<seq<ProviderEntry>>

  function AddDirectories(o: Oracle, b: Building, specs: seq<string>, answers: Answers): Building {
    if specs == [] then b
    else
      var before, spec := AddDirectories(o, b, specs[..|specs| - 1], answers), specs[|specs| - 1];
      var found := answers(spec);
      if found.None? then before.(warnings := before.warnings + [Unreachable(spec)])
      else AddAll(o, before, found.value)
  }

  function Build(o: Oracle, providers: seq<ProviderEntry>, directories: seq<string>, answers: Answers): Building {
    AddDirectories(o, AddAll(o, Building([], []), providers), directories, answers)
  }

  /** Verifying this entry raises. */
  predicate Trips(o: Oracle, e: ProviderEntry) {
    Chokes(o.trust, e.manifest)
  }

  predicate Tripping(o: Oracle, es: seq<ProviderEntry>) {
    exists i :: 0 <= i < |es| && Trips(o, es[i])
  }

  /** Some entry offered to the registry trips verification. */
  predicate BuildCrashes(o: Oracle, providers: seq<ProviderEntry>, directories: seq<string>, answers: Answers) {
    || Tripping(o, providers)
    || exists i :: 0 <= i < |directories| && answers(directories[i]).Some? && Tripping(o, answers(directories[i]).value)
  }

  /** build_registry; it raises exactly when verification trips over an entry. */
  method BuildRegistry(o: Oracle, providers: seq<ProviderEntry>, directories: seq<string>, answers: Answers)
      returns (crashed: bool, registry: seq<ProviderEntry>, warnings: seq<Warning>)
    ensures crashed <==> BuildCrashes(o, providers, directories, answers)
    ensures !crashed ==> Building(registry, warnings) == Build(o, providers, directories, answers)
    ensures Pinned(o, registry)
  {
    hide Pinned, TryAdd, Trips;
    var b := Building([], []);
    PinnedNone(o);
    for i := 0 to |providers|
      invariant b == AddAll(o, Building([], []), providers[..i]) && Pinned(o, b.pinned)
      invariant !Tripping(o, providers[..i])
    {
      assert providers[..i + 1][..i] == providers[..i];
      var ok, next := AddOne(o, b, providers[i]);
      if !ok { return true, b.pinned, b.warnings; }
      b := next;
    }
    assert providers[..|providers|] == providers;
    ghost var fromConfig := b;
    for i := 0 to |directories|
      invariant b == AddDirectories(o, fromConfig, directories[..i], answers) && Pinned(o, b.pinned)
      invariant forall k :: 0 <= k < i && answers(directories[k]).Some? ==> !Tripping(o, answers(directories[k]).value)
    {
      assert directories[..i + 1][..i] == directories[..i];
      var found := answers(directories[i]);
      if found.None? {
        b := b.(warnings := b.warnings + [Unreachable(directories[i])]);
        continue;
      }
      ghost var before := b;
      var entries := found.value;
      for j := 0 to |entries|
        invariant b == AddAll(o, before, entries[..j]) && Pinned(o, b.pinned)
        invariant !Tripping(o, entries[..j])
      {
        assert entries[..j + 1][..j] == entries[..j];
        var ok, next := AddOne(o, b, entries[j]);
        if !ok { return true, b.pinned, b.warnings; }
        b := next;
      }
      assert entries[..|entries|] == entries;
    }
    assert directories[..|directories|] == directories;
    return false, b.pinned, b.warnings;
  }

  /** _try_add */
  method AddOne(o: Oracle, b: Building, e: ProviderEntry) returns (ok: bool, next: Building)
    requires Pinned(o, b.pinned)
    ensures ok <==> !Trips(o, e)
    ensures ok ==> next == TryAdd(o, b, e) && Pinned(o, next.pinned)
  {
    hide Pinned, Keyless;
    ManifestRaises(o.trust, e.manifest);
    TryAddPinned(o, b, e);
    PinnedKeyed(o, b.pinned);
    var entry := TrustedEntry(o, e.manifest, Some(e.baseUrl), true);
    match entry {
      case Crashed => return false, b;
      case Untrusted(why) => return true, b.(warnings := b.warnings + [Dropped(e.baseUrl, why)]);
      case Success(trusted) =>
        var merged := MergeProvider(b.pinned, trusted);
        match merged {
          case Crashed =>
            // a pinned list has a key in every entry
            assert false;
            return true, b;
          case Untrusted(why) => return true, b.(warnings := b.warnings + [Dropped(e.baseUrl, why)]);
          case Success(pinned) => return true, b.(pinned := pinned);
        }
    }
  }

  lemma PinnedNone(o: Oracle)
    ensures Pinned(o, [])
  {
  }

  lemma PinnedKeyed(o: Oracle, ps: seq<ProviderEntry>)
    requires Pinned(o, ps)
    ensures !Keyless(ps) && forall i :: 0 <= i < |ps| ==> Pubkey(ps[i]).Some?
  {
    forall i | 0 <= i < |ps| ensures Pubkey(ps[i]).Some? {
      assert Trusted(o, ps[i]);
    }
  }

  /** What discovery returns has been verified, so it cannot trip the registry. */
  lemma DiscoveredNeverTrips(o: Oracle, source: Source)
    requires Answer(source, o.trust, None).Some?
    ensures !Tripping(o, Answer(source, o.trust, None).value)
  {
    hide VerifyManifest, Chokes, Dedupe, Surfaced;
    var es := Answer(source, o.trust, None).value;
    DiscoveredExact(Received(source).value, o.trust, None);
    forall i | 0 <= i < |es| ensures !Trips(o, es[i]) {
      assert es[i] in es;
      ManifestRaises(o.trust, es[i].manifest);
    }
  }

  // ---------------------------------------------------------------- pinning

  lemma {:induction false} WithoutKeyExact(ps: seq<ProviderEntry>, key: Option<string>)
    ensures forall e :: e in WithoutKey(ps, key) <==> e in ps && Pubkey(e) != key
  {
    if ps != [] {
      WithoutKeyExact(ps[1..], key);
      assert ps == [ps[0]] + ps[1..];
    }
  }

  /** An entry that agrees with none of a pinned list may stand before it. */
  lemma PinnedCons(o: Oracle, e: ProviderEntry, ps: seq<ProviderEntry>)
    requires Pinned(o, ps) && Trusted(o, e)
    requires forall x :: x in ps ==> Pubkey(x) != Pubkey(e) && x.baseUrl != e.baseUrl
    ensures Pinned(o, [e] + ps)
  {
    hide Trusted, Pubkey;
    var w := [e] + ps;
    forall i, j | 0 <= i < j < |w| ensures Pubkey(w[i]) != Pubkey(w[j]) && w[i].baseUrl != w[j].baseUrl {
      assert w[j] == ps[j - 1] && ps[j - 1] in ps;
    }
  }

  /** The converse, for the head of a pinned list. */
  lemma PinnedHead(o: Oracle, ps: seq<ProviderEntry>)
    requires Pinned(o, ps) && ps != []
    ensures Trusted(o, ps[0]) && Pinned(o, ps[1..])
    ensures forall x :: x in ps[1..] ==> Pubkey(x) != Pubkey(ps[0]) && x.baseUrl != ps[0].baseUrl
  {
    hide Trusted, Pubkey;
    forall x | x in ps[1..] ensures Pubkey(x) != Pubkey(ps[0]) && x.baseUrl != ps[0].baseUrl {
      var k :| 0 <= k < |ps[1..]| && ps[1..][k] == x;
      assert ps[k + 1] == x;
    }
  }

  lemma {:induction false} WithoutKeyPinned(o: Oracle, ps: seq<ProviderEntry>, key: Option<string>)
    requires Pinned(o, ps)
    ensures Pinned(o, WithoutKey(ps, key))
  {
    hide Pinned, Pubkey, Trusted;
    if ps != [] {
      PinnedHead(o, ps);
      WithoutKeyPinned(o, ps[1..], key);
      WithoutKeyExact(ps[1..], key);
      if Pubkey(ps[0]) != key {
        PinnedCons(o, ps[0], WithoutKey(ps[1..], key));
      }
    }
  }

  lemma MergePinned(o: Oracle, ps: seq<ProviderEntry>, e: ProviderEntry)
    requires Pinned(o, ps) && Trusted(o, e) && !PinnedElsewhere(ps, e)
    ensures Pinned(o, WithoutKey(ps, Pubkey(e)) + [e])
  {
    var w := WithoutKey(ps, Pubkey(e));
    WithoutKeyPinned(o, ps, Pubkey(e));
    WithoutKeyExact(ps, Pubkey(e));
    forall i | 0 <= i < |w| ensures Pubkey(w[i]) != Pubkey(e) && w[i].baseUrl != e.baseUrl {
      assert w[i] in ps;
      var k :| 0 <= k < |ps| && ps[k] == w[i];
    }
  }

  lemma TryAddPinned(o: Oracle, b: Building, e: ProviderEntry)
    requires Pinned(o, b.pinned)
    ensures Pinned(o, TryAdd(o, b, e).pinned)
  {
    var t := TrustedEntry(o, e.manifest, Some(e.baseUrl), true);
    if t.Success? && !PinnedElsewhere(b.pinned, t.value) {
      MergePinned(o, b.pinned, t.value);
    }
  }

  lemma {:induction false} AddAllPinned(o: Oracle, b: Building, es: seq<ProviderEntry>)
    requires Pinned(o, b.pinned)
    ensures Pinned(o, AddAll(o, b, es).pinned)
  {
    if es != [] {
      AddAllPinned(o, b, es[..|es| - 1]);
      TryAddPinned(o, AddAll(o, b, es[..|es| - 1]), es[|es| - 1]);
    }
  }

  lemma {:induction false} DirectoriesPinned(o: Oracle, b: Building, specs: seq<string>, answers: Answers)
    requires Pinned(o, b.pinned)
    ensures Pinned(o, AddDirectories(o, b, specs, answers).pinned)
  {
    if specs != [] {
      var front := specs[..|specs| - 1];
      DirectoriesPinned(o, b, front, answers);
      var found := answers(specs[|specs| - 1]);
      if found.Some? {
        AddAllPinned(o, AddDirectories(o, b, front, answers), found.value);
      }
    }
  }

  /** Whatever the configuration and the directories say, the registry is pinned and trusted. */
  lemma BuildPinned(o: Oracle, providers: seq<ProviderEntry>, directories: seq<string>, answers: Answers)
    ensures Pinned(o, Build(o, providers, directories, answers).pinned)
  {
    AddAllPinned(o, Building([], []), providers);
    DirectoriesPinned(o, AddAll(o, Building([], []), providers), directories, answers);
  }

  predicate Holds(ps: seq<ProviderEntry>, url: string, key: Option<string>) {
    exists i :: 0 <= i < |ps| && ps[i].baseUrl == url && Pubkey(ps[i]) == key
  }

  /** The t-th candidate is accepted. */
  predicate Accepted(o: Oracle, b: Building, es: seq<ProviderEntry>, t: nat)
    requires t < |es|
  {
    && Trusted(o, es[t])
    && !PinnedElsewhere(AddAll(o, b, es[..t]).pinned, es[t])
  }

  /** A key loses its endpoint only to an accepted entry of its own for another endpoint. */
  lemma LosesOnlyByMoving(o: Oracle, b: Building, e: ProviderEntry, url: string, key: Option<string>)
    requires Holds(b.pinned, url, key) && !Holds(TryAdd(o, b, e).pinned, url, key)
    ensures Trusted(o, e) && !PinnedElsewhere(b.pinned, e) && Pubkey(e) == key && e.baseUrl != url
  {
    var k :| 0 <= k < |b.pinned| && b.pinned[k].baseUrl == url && Pubkey(b.pinned[k]) == key;
    var w := WithoutKey(b.pinned, Pubkey(e)) + [e];
    assert TryAdd(o, b, e).pinned == w;
    assert w[|w| - 1] == e;
    WithoutKeyExact(b.pinned, Pubkey(e));
    var x := b.pinned[k];
    assert Pubkey(e) != key ==> x in w;
  }

  /**
   * Trust on first use. If an endpoint pinned to one key is later pinned to another, then in
   * between an accepted entry moved the first key to a different endpoint.
   */
  lemma EndpointPassesOnlyByMove(
    o: Oracle, b: Building, es: seq<ProviderEntry>, i: nat, j: nat, url: string, k: Option<string>, k': Option<string>)
    requires Pinned(o, b.pinned) && i <= j <= |es| && k != k'
    requires exists p :: p in AddAll(o, b, es[..i]).pinned && p.baseUrl == url && Pubkey(p) == k
    requires exists p :: p in AddAll(o, b, es[..j]).pinned && p.baseUrl == url && Pubkey(p) == k'
    ensures exists t ::
              && i <= t < j && Trusted(o, es[t]) && Pubkey(es[t]) == k && es[t].baseUrl != url
              && forall p :: p in AddAll(o, b, es[..t]).pinned && p.baseUrl == es[t].baseUrl ==> Pubkey(p) == k
  {
    hide Pinned, Accepted, AddAll, Trusted;
    assert Holds(AddAll(o, b, es[..i]).pinned, url, k) && Holds(AddAll(o, b, es[..j]).pinned, url, k');
    AddAllPinned(o, b, es[..j]);
    OneKeyPerEndpoint(o, AddAll(o, b, es[..j]).pinned, url, k, k');
    LostBetween(o, b, es, i, j, url, k);
    var t :| i <= t < j && Accepted(o, b, es, t) && Pubkey(es[t]) == k && es[t].baseUrl != url;
    AcceptedExact(o, b, es, t);
  }

  lemma AcceptedExact(o: Oracle, b: Building, es: seq<ProviderEntry>, t: nat)
    requires t < |es| && Accepted(o, b, es, t)
    ensures Trusted(o, es[t])
    ensures forall p :: p in AddAll(o, b, es[..t]).pinned && p.baseUrl == es[t].baseUrl ==> Pubkey(p) == Pubkey(es[t])
  {
    hide Trusted, Pubkey, AddAll;
  }

  lemma OneKeyPerEndpoint(o: Oracle, ps: seq<ProviderEntry>, url: string, k: Option<string>, k': Option<string>)
    requires Pinned(o, ps) && Holds(ps, url, k') && k != k'
    ensures !Holds(ps, url, k)
  {
    hide Pubkey, Trusted;
  }

  lemma {:induction false} LostBetween(
    o: Oracle, b: Building, es: seq<ProviderEntry>, i: nat, j: nat, url: string, k: Option<string>)
    requires i <= j <= |es|
    requires Holds(AddAll(o, b, es[..i]).pinned, url, k) && !Holds(AddAll(o, b, es[..j]).pinned, url, k)
    ensures exists t :: i <= t < j && Accepted(o, b, es, t) && Pubkey(es[t]) == k && es[t].baseUrl != url
    decreases j
  {
    hide TryAdd, Trusted, PinnedElsewhere, Pubkey, Holds;
    var t := j - 1;
    assert i < j;
    assert es[..j][..t] == es[..t];
    if Holds(AddAll(o, b, es[..t]).pinned, url, k) {
      LosesOnlyByMoving(o, AddAll(o, b, es[..t]), es[t], url, k);
      assert Accepted(o, b, es, t);
    } else {
      LostBetween(o, b, es, i, t, url, k);
    }
  }

  // ---------------------------------------------------------------- rebuilding

  lemma {:induction false} WithoutAbsent(ps: seq<ProviderEntry>, key: Option<string>)
    requires forall i :: 0 <= i < |ps| ==> Pubkey(ps[i]) != key
    ensures WithoutKey(ps, key) == ps
  {
    if ps != [] {
      WithoutAbsent(ps[1..], key);
      assert ps == [ps[0]] + ps[1..];
    }
  }

  predicate HasEntry(ps: seq<ProviderEntry>, key: Option<string>) {
    exists i :: 0 <= i < |ps| && Pubkey(ps[i]) == key
  }

  /** A key once pinned stays pinned, whatever is offered later. */
  lemma TryAddKeepsKeys(o: Oracle, b: Building, e: ProviderEntry, key: Option<string>)
    requires HasEntry(b.pinned, key)
    ensures HasEntry(TryAdd(o, b, e).pinned, key)
  {
    var ps := TryAdd(o, b, e).pinned;
    if ps != b.pinned {
      var i :| 0 <= i < |b.pinned| && Pubkey(b.pinned[i]) == key;
      var x := b.pinned[i];
      var t := TrustedEntry(o, e.manifest, Some(e.baseUrl), true).value;
      WithoutKeyExact(b.pinned, Pubkey(t));
      assert ps[|ps| - 1] == t;
      assert Pubkey(t) != key ==> x in ps;
    }
  }

  lemma {:induction false} AddAllKeepsKeys(o: Oracle, b: Building, es: seq<ProviderEntry>, key: Option<string>)
    requires HasEntry(b.pinned, key)
    ensures HasEntry(AddAll(o, b, es).pinned, key)
  {
    if es != [] {
      AddAllKeepsKeys(o, b, es[..|es| - 1], key);
      TryAddKeepsKeys(o, AddAll(o, b, es[..|es| - 1]), es[|es| - 1], key);
    }
  }

  lemma {:induction false} DirectoriesKeepKeys(
    o: Oracle, b: Building, specs: seq<string>, answers: Answers, key: Option<string>)
    requires HasEntry(b.pinned, key)
    ensures HasEntry(AddDirectories(o, b, specs, answers).pinned, key)
  {
    if specs != [] {
      var front := specs[..|specs| - 1];
      DirectoriesKeepKeys(o, b, front, answers, key);
      var found := answers(specs[|specs| - 1]);
      if found.Some? {
        AddAllKeepsKeys(o, AddDirectories(o, b, front, answers), found.value, key);
      }
    }
  }

  /** A trusted entry that agrees with none of a pinned list is appended to it. */
  lemma TryAddNew(o: Oracle, ps: seq<ProviderEntry>, e: ProviderEntry)
    requires Pinned(o, ps + [e])
    ensures TryAdd(o, Building(ps, []), e) == Building(ps + [e], [])
  {
    hide Pubkey, WithoutKey, VerifyManifest, Text;
    var all := ps + [e];
    assert all[|ps|] == e && Trusted(o, e);
    assert forall i :: 0 <= i < |ps| ==> all[i] == ps[i];
    PinnedFront(o, ps, e);
    PinnedKeyed(o, ps);
    WithoutAbsent(ps, Pubkey(e));
    assert !PinnedElsewhere(ps, e);
  }

  lemma PinnedFront(o: Oracle, ps: seq<ProviderEntry>, e: ProviderEntry)
    requires Pinned(o, ps + [e])
    ensures Pinned(o, ps)
  {
    hide Pubkey, Trusted;
    assert forall i :: 0 <= i < |ps| ==> (ps + [e])[i] == ps[i];
  }

  /** Rebuilding a pinned list drops nothing, keeps its order and raises no warning. */
  lemma {:induction false} RebuildKeeps(o: Oracle, ps: seq<ProviderEntry>)
    requires Pinned(o, ps)
    ensures AddAll(o, Building([], []), ps) == Building(ps, [])
  {
    hide Pinned, TryAdd;
    if ps != [] {
      var front, e := ps[..|ps| - 1], ps[|ps| - 1];
      assert ps == front + [e];
      PinnedFront(o, front, e);
      RebuildKeeps(o, front);
      TryAddNew(o, front, e);
    }
  }
}
