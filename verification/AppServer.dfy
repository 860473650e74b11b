/** The desktop app server: a live routing backend that must agree with the saved configuration (server.py). */
module AppServer {
  import opened Prelude
  import opened Json
  import opened Discovery
  import opened Sources
  import opened Configs

  datatype LocalProvider = LocalProvider(entry: ProviderEntry, runtime: string, model: string)

  /** What each directory would give now. */
  type Contents = string -> Source

  /** The answers of discovery on these contents. */
  function Answering(o: Oracle, contents: Contents): Answers {
    spec => Answer(contents(spec), o.trust, None)
  }

  datatype Backend = Backend(entries: seq<ProviderEntry>, token: Option<string>)

  /** What a fresh start would build from these parts. */
  function FreshBackend(o: Oracle, c: AppConfig, local: Option<LocalProvider>, contents: Contents): Backend {
    var registry := Build(o, c.providers, c.directories, Answering(o, contents)).pinned;
    Backend(if local.Some? then registry + [local.value.entry] else registry, c.token)
  }

  /** load_config; a missing file is the default, None a ValueError. */
  function Load(disk: Option<Json>): Option<AppConfig> {
    if disk.None? then Some(DEFAULT_CONFIG) else FromJson(disk.value)
  }

  function WithoutText(specs: seq<string>, spec: string): seq<string> {
    if specs == [] then []
    else if specs[0] == spec then WithoutText(specs[1..], spec)
    else [specs[0]] + WithoutText(specs[1..], spec)
  }

  /** POST /api/providers: what the list becomes, or why the manifest is refused. */
  function Admit(o: Oracle, ps: seq<ProviderEntry>, manifest: seq<Member>, baseUrl: Option<string>)
      : Result<seq<ProviderEntry>>
  {
    match TrustedEntry(o, JObj(manifest), baseUrl, true)
    case Crashed => Crashed
    case Untrusted(why) => Untrusted(why)
    case Success(entry) => MergeProvider(ps, entry)
  }

  /** Admission crashes exactly on a manifest that chokes, or when the list itself names no key where one is needed. */
  lemma AdmitCrashes(o: Oracle, ps: seq<ProviderEntry>, manifest: seq<Member>, baseUrl: Option<string>)
    ensures Chokes(o.trust, JObj(manifest)) ==> Admit(o, ps, manifest, baseUrl).Crashed?
    ensures !Keyless(ps) ==> (Admit(o, ps, manifest, baseUrl).Crashed? <==> Chokes(o.trust, JObj(manifest)))
  {
    ManifestRaises(o.trust, JObj(manifest));
  }

  /** The signed address of a manifest. */
  function Address(manifest: seq<Member>): string {
    if Field(JObj(manifest), "manifest_uri").JStr? then Field(JObj(manifest), "manifest_uri").s else ""
  }

  /** Verified, at its own signed and safe address, which is the one it was offered at, if any; and no other key holds it. */
  ghost predicate Admissible(o: Oracle, ps: seq<ProviderEntry>, manifest: seq<Member>, baseUrl: Option<string>) {
    var uri := Address(manifest);
    && VerifyManifest(o.trust, JObj(manifest)).Passes?
    && uri != "" && o.safe(uri) && (baseUrl.Some? ==> baseUrl.value == uri)
    && forall p :: p in ps && p.baseUrl == uri ==> Pubkey(p) == Text(JObj(manifest), "provider_pubkey")
  }

  /** e comes last, and of the others exactly those of its key have left. */
  ghost predicate Joins(before: seq<ProviderEntry>, e: ProviderEntry, after: seq<ProviderEntry>) {
    && after != [] && after[|after| - 1] == e
    && (forall p :: p in after[..|after| - 1] <==> p in before && Pubkey(p) != Pubkey(e))
  }

  /** Exactly the admissible manifests join the list, if all of its entries name a key. */
  lemma AdmitExact(o: Oracle, ps: seq<ProviderEntry>, manifest: seq<Member>, baseUrl: Option<string>)
    ensures var r := Admit(o, ps, manifest, baseUrl);
            && (r.Success? ==> Admissible(o, ps, manifest, baseUrl))
            && (Admissible(o, ps, manifest, baseUrl) && !Keyless(ps) ==> r.Success?)
            && (r.Success? ==> Joins(ps, ProviderEntry(Address(manifest), JObj(manifest)), r.value))
  {
    hide VerifyManifest, Keyless;
    var e := ProviderEntry(Address(manifest), JObj(manifest));
    var w := WithoutKey(ps, Pubkey(e));
    WithoutKeyExact(ps, Pubkey(e));
    assert (w + [e])[..|w|] == w;
    if forall p :: p in ps && p.baseUrl == e.baseUrl ==> Pubkey(p) == Pubkey(e) {
      assert !PinnedElsewhere(ps, e) by {
        forall i | 0 <= i < |ps| && ps[i].baseUrl == e.baseUrl ensures Pubkey(ps[i]) == Pubkey(e) {
          assert ps[i] in ps;
        }
      }
    }
  }

  predicate UnsafeSpec(o: Oracle, spec: string) {
    ("http://" <= spec || "https://" <= spec) && !o.safe(spec)
  }

  /** A mutating request; `started` is what starting the runtime gives, None when it fails. */
  datatype Operation =
    | Complete
    | Add(manifest: seq<Member>, baseUrl: Option<string>)
    | Remove(pubkey: string)
    | Follow(spec: string)
    | Unfollow(spec: string)
    | Start(runtime: string, model: string, started: Option<LocalProvider>)
    | Stop

  /** The configuration a request leaves behind. */
  function Configured(o: Oracle, c: AppConfig, op: Operation): AppConfig {
    match op
    case Complete => c.(onboardingComplete := true)
    case Add(manifest, baseUrl) =>
      var merged := Admit(o, c.providers, manifest, baseUrl);
      if merged.Success? then c.(providers := merged.value) else c
    case Remove(pubkey) => c.(providers := WithoutKey(c.providers, Some(pubkey)))
    case Follow(spec) =>
      if UnsafeSpec(o, spec) || spec in c.directories then c else c.(directories := c.directories + [spec])
    case Unfollow(spec) => c.(directories := WithoutText(c.directories, spec))
    case Start(runtime, model, started) =>
      if started.Some? then c.(localUse := Some(LocalUse(runtime, model))) else c
    case Stop => c.(localUse := None)
  }

  function Localized(local: Option<LocalProvider>, op: Operation): Option<LocalProvider> {
    match op
    case Start(_, _, started) => if started.Some? then started else local
    case Stop => None
    case _ => local
  }

  /** The status a request is answered with. */
  function Status(o: Oracle, c: AppConfig, op: Operation): int {
    match op
    case Add(manifest, baseUrl) =>
      (match Admit(o, c.providers, manifest, baseUrl)
       case Success(_) => 200
       case Untrusted(_) => 400
       case Crashed => 500)
    case Follow(spec) => if UnsafeSpec(o, spec) then 400 else 200
    case Start(_, _, started) => if started.None? then 400 else 200
    case _ => 200
  }

  /** The configuration after a whole run of requests. */
  function ConfiguredBy(o: Oracle, c: AppConfig, ops: seq<Operation>): AppConfig {
    if ops == [] then c else Configured(o, ConfiguredBy(o, c, ops[..|ops| - 1]), ops[|ops| - 1])
  }

  class ServerState {
    const oracle: Oracle
    /** The document in config.json. */
    var disk: Option<Json>
    var config: AppConfig
    var local: Option<LocalProvider>
    var backend: Backend
    /** What the directories held at the last rebuild. */
    ghost var contents: Contents

    /** Disk, configuration and backend agree, and no configured manifest trips a rebuild. */
    ghost predicate Valid()
      reads this
    {
      && Storable(config.providers) && !Tripping(oracle, config.providers)
      && Load(disk) == Some(config)
      && backend == FreshBackend(oracle, config, local, contents)
      && (local.Some? ==> config.localUse.Some?)
    }

    /** Load, restore the local model (`started` is what starting it gives), build. */
    constructor (oracle: Oracle, disk: Option<Json>, started: Option<LocalProvider>, contents: Contents)
      requires Load(disk).Some? && !Tripping(oracle, Load(disk).value.providers)
      ensures Valid() && this.oracle == oracle && this.disk == disk && config == Load(disk).value
      ensures local == if config.localUse.Some? then started else None
      ensures this.contents == contents
    {
      hide Tripping, Build;
      LoadStorable(disk);
      this.oracle := oracle;
      this.disk := disk;
      config := Load(disk).value;
      local := if Load(disk).value.localUse.Some? then started else None;
      backend := Backend([], None);
      new;
      Rebuild(contents);
    }

    method Rebuild(contents: Contents)
      requires !Tripping(oracle, config.providers)
      modifies this`backend, this`contents
      ensures this.contents == contents
      ensures backend == FreshBackend(oracle, config, local, contents)
      ensures backend.token == config.token
      ensures if local.None? then Pinned(oracle, backend.entries)
              else |backend.entries| > 0 && backend.entries[|backend.entries| - 1] == local.value.entry
                   && Pinned(oracle, backend.entries[..|backend.entries| - 1])
    {
      hide Build, Tripping, Pinned;
      OnlyProvidersTrip(oracle, config.providers, config.directories, contents);
      var crashed, registry, _ := BuildRegistry(oracle, config.providers, config.directories, Answering(oracle, contents));
      if local.Some? {
        assert (registry + [local.value.entry])[..|registry|] == registry;
        registry := registry + [local.value.entry];
      }
      backend := Backend(registry, config.token);
      this.contents := contents;
    }

    method Persist()
      requires Storable(config.providers)
      modifies this`disk
      ensures Load(disk) == Some(config)
    {
      ConfigRoundTrip(config);
      disk := Some(ToJson(config));
    }

    /** POST /api/onboarding/complete */
    method CompleteOnboarding(contents: Contents)
      requires Valid()
      modifies this
      ensures Valid() && config == Configured(oracle, old(config), Complete) == old(config).(onboardingComplete := true)
      ensures local == Localized(old(local), Complete)
    {
      hide Build, FromJson, ToJson, TrustedEntry, WithoutKey, PinnedElsewhere, Tripping, MergeProvider;
      config := config.(onboardingComplete := true);
      Persist();
      Rebuild(contents);
    }

    /** POST /api/providers */
    method AddProvider(manifest: seq<Member>, baseUrl: Option<string>, contents: Contents) returns (status: int)
      requires Valid()
      modifies this
      ensures Valid() && config == Configured(oracle, old(config), Add(manifest, baseUrl))
      ensures status == Status(oracle, old(config), Add(manifest, baseUrl))
      ensures !Keyless(old(config.providers)) ==> (status == 500 <==> Chokes(oracle.trust, JObj(manifest)))
      ensures status != 200 ==> unchanged(this)
      ensures status in {200, 400, 500}
      ensures status == 200 ==>
                && Admissible(oracle, old(config.providers), manifest, baseUrl)
                && Joins(old(config.providers), ProviderEntry(Address(manifest), JObj(manifest)), config.providers)
                && config == old(config).(providers := config.providers)
      ensures Admissible(oracle, old(config.providers), manifest, baseUrl) && !Keyless(old(config.providers)) ==> status == 200
      ensures local == Localized(old(local), Add(manifest, baseUrl)) == old(local)
    {
      AdmitExact(oracle, config.providers, manifest, baseUrl);
      hide Admissible, Joins;
      hide Build, FromJson, ToJson, TrustedEntry, WithoutKey, PinnedElsewhere, Tripping, MergeProvider;
      AdmitCrashes(oracle, config.providers, manifest, baseUrl);
      status := 200;
      var entry := TrustedEntry(oracle, JObj(manifest), baseUrl, true);
      if entry.Crashed? {
        return 500;
      }
      if entry.Untrusted? {
        return 400;
      }
      var merged := MergeProvider(config.providers, entry.value);
      if merged.Crashed? {
        return 500;
      }
      if merged.Untrusted? {
        return 400;
      }
      AdmitKeeps(oracle, config.providers, manifest, baseUrl);
      config := config.(providers := merged.value);
      Persist();
      Rebuild(contents);
    }

    /** DELETE /api/providers/{pubkey} */
    method RemoveProvider(pubkey: string, contents: Contents)
      requires Valid()
      modifies this
      ensures Valid() && config == Configured(oracle, old(config), Remove(pubkey)) == old(config).(providers := config.providers)
      ensures forall p :: p in config.providers <==> p in old(config.providers) && Pubkey(p) != Some(pubkey)
      ensures local == Localized(old(local), Remove(pubkey)) == old(local)
    {
      WithoutKeyExact(config.providers, Some(pubkey));
      hide Build, FromJson, ToJson, TrustedEntry, WithoutKey, PinnedElsewhere, Tripping, MergeProvider;
      WithoutKeyKeeps(oracle, config.providers, Some(pubkey));
      config := config.(providers := WithoutKey(config.providers, Some(pubkey)));
      Persist();
      Rebuild(contents);
    }

    /** POST /api/directory; a known spec is not fetched again */
    method AddDirectory(spec: string, contents: Contents) returns (status: int)
      requires Valid()
      modifies this
      ensures Valid() && config == Configured(oracle, old(config), Follow(spec))
      ensures status == Status(oracle, old(config), Follow(spec))
      ensures status == if ("http://" <= spec || "https://" <= spec) && !oracle.safe(spec) then 400 else 200
      ensures status == 200 ==>
                config == if spec in old(config.directories) then old(config)
                          else old(config).(directories := old(config.directories) + [spec])
      ensures status != 200 ==> unchanged(this)
      ensures local == Localized(old(local), Follow(spec)) == old(local)
    {
      hide Build, FromJson, ToJson, TrustedEntry, WithoutKey, PinnedElsewhere, Tripping, MergeProvider;
      status := 200;
      if ("http://" <= spec || "https://" <= spec) && !oracle.safe(spec) {
        return 400;
      }
      if spec !in config.directories {
        config := config.(directories := config.directories + [spec]);
        Persist();
        Rebuild(contents);
      }
    }

    /** DELETE /api/directory */
    method RemoveDirectory(spec: string, contents: Contents)
      requires Valid()
      modifies this
      ensures Valid() && config == Configured(oracle, old(config), Unfollow(spec)) == old(config).(directories := config.directories)
      ensures forall d :: multiset(config.directories)[d] == if d == spec then 0 else multiset(old(config.directories))[d]
      ensures local == Localized(old(local), Unfollow(spec)) == old(local)
    {
      forall d { WithoutTextCounts(config.directories, spec, d); }
      hide Build, FromJson, ToJson, TrustedEntry, WithoutKey, PinnedElsewhere, Tripping, MergeProvider;
      if spec in config.directories {
        config := config.(directories := WithoutText(config.directories, spec));
        Persist();
        Rebuild(contents);
      } else {
        WithoutAbsentText(config.directories, spec);
      }
    }

    /** POST /api/local-use */
    method StartLocalUse(runtime: string, model: string, started: Option<LocalProvider>, contents: Contents) returns (status: int)
      requires Valid()
      modifies this
      ensures Valid() && config == Configured(oracle, old(config), Start(runtime, model, started))
      ensures status == Status(oracle, old(config), Start(runtime, model, started))
      ensures status == if started.None? then 400 else 200
      ensures status == 200 ==> config == old(config).(localUse := Some(LocalUse(runtime, model))) && local == started
      ensures status != 200 ==> unchanged(this)
      ensures local == Localized(old(local), Start(runtime, model, started))
    {
      hide Build, FromJson, ToJson, TrustedEntry, WithoutKey, PinnedElsewhere, Tripping, MergeProvider;
      status := 200;
      if started.None? {
        return 400;
      }
      local := started;
      config := config.(localUse := Some(LocalUse(runtime, model)));
      Persist();
      Rebuild(contents);
    }

    /** DELETE /api/local-use */
    method StopLocalUse(contents: Contents)
      requires Valid()
      modifies this
      ensures Valid() && config == Configured(oracle, old(config), Stop) == old(config).(localUse := None)
      ensures local == Localized(old(local), Stop) == None
    {
      hide Build, FromJson, ToJson, TrustedEntry, WithoutKey, PinnedElsewhere, Tripping, MergeProvider;
      local := None;
      config := config.(localUse := None);
      Persist();
      Rebuild(contents);
    }

    method Handle(op: Operation, contents: Contents)
      requires Valid()
      modifies this
      ensures Valid() && config == Configured(oracle, old(config), op) && local == Localized(old(local), op)
      ensures Status(oracle, old(config), op) != 200 ==> unchanged(this)
    {
      hide Configured, Localized, Valid;
      match op {
        case Complete => CompleteOnboarding(contents);
        case Add(manifest, baseUrl) => var _ := AddProvider(manifest, baseUrl, contents);
        case Remove(pubkey) => RemoveProvider(pubkey, contents);
        case Follow(spec) => var _ := AddDirectory(spec, contents);
        case Unfollow(spec) => RemoveDirectory(spec, contents);
        case Start(runtime, model, started) => var _ := StartLocalUse(runtime, model, started, contents);
        case Stop => StopLocalUse(contents);
      }
    }

    /** Any run of requests, with whatever the directories hold at each. */
    method HandleAll(ops: seq<Operation>, contents: nat -> Contents)
      requires Valid()
      modifies this
      ensures Valid()
      ensures config == ConfiguredBy(oracle, old(config), ops)
      ensures Pinned(oracle, old(config).providers) ==> Pinned(oracle, config.providers)
    {
      hide Valid, Configured, Localized, Status, Pinned;
      for i := 0 to |ops|
        invariant Valid() && config == ConfiguredBy(oracle, old(config), ops[..i])
      {
        assert ops[..i + 1][..i] == ops[..i];
        Handle(ops[i], contents(i));
      }
      assert ops[..|ops|] == ops;
      if Pinned(oracle, old(config).providers) {
        ConfiguredPinned(oracle, old(config), ops);
      }
    }
  }

  /**
   * Boot. It fails exactly when the file is malformed or a saved provider chokes verification;
   * otherwise disk, configuration and backend agree.
   */
  method Boot(oracle: Oracle, disk: Option<Json>, started: Option<LocalProvider>, contents: Contents) returns (s: ServerState?)
    ensures s == null <==>
            Load(disk).None? || exists p :: p in Load(disk).value.providers && Chokes(oracle.trust, p.manifest)
    ensures s != null ==>
              && fresh(s) && s.Valid() && s.oracle == oracle && s.disk == disk && s.config == Load(disk).value
              && s.local == (if s.config.localUse.Some? then started else None) && s.contents == contents
  {
    hide Chokes;
    s := null;
    if Load(disk).Some? && !Tripping(oracle, Load(disk).value.providers) {
      s := new ServerState(oracle, disk, started, contents);
    } else if Load(disk).Some? {
      ghost var ps := Load(disk).value.providers;
      ghost var i :| 0 <= i < |ps| && Trips(oracle, ps[i]);
      assert ps[i] in ps;
    }
  }

  /** Restarting from disk, with the same local model and directories, gives the same backend. */
  method Restart(s: ServerState, contents: Contents) returns (t: ServerState)
    requires s.Valid() && contents == s.contents
    ensures fresh(t) && t.Valid() && t.config == s.config && t.local == s.local && t.backend == s.backend
  {
    t := new ServerState(s.oracle, s.disk, s.local, contents);
  }

  lemma {:induction false} ParsedStorable(items: seq<Json>)
    requires ParseProviders(items).Some?
    ensures Storable(ParseProviders(items).value)
  {
    if items != [] {
      ParsedStorable(items[1..]);
    }
  }

  lemma LoadStorable(disk: Option<Json>)
    requires Load(disk).Some?
    ensures Storable(Load(disk).value.providers)
  {
    if disk.Some? {
      ParsedStorable(ListField(disk.value.members, "providers").value);
    }
  }

  lemma {:induction false} WithoutAbsentText(specs: seq<string>, spec: string)
    requires spec !in specs
    ensures WithoutText(specs, spec) == specs
  {
    if specs != [] {
      WithoutAbsentText(specs[1..], spec);
      assert specs == [specs[0]] + specs[1..];
    }
  }

  lemma WithoutKeyKeeps(o: Oracle, ps: seq<ProviderEntry>, key: Option<string>)
    requires Storable(ps) && !Tripping(o, ps)
    ensures Storable(WithoutKey(ps, key)) && !Tripping(o, WithoutKey(ps, key))
  {
    hide Trips;
    var w := WithoutKey(ps, key);
    WithoutKeyExact(ps, key);
    forall i | 0 <= i < |w| ensures w[i].manifest.JObj? && !Trips(o, w[i]) {
      assert w[i] in ps;
      var k :| 0 <= k < |ps| && ps[k] == w[i];
    }
  }

  /** What a provider list needs to be saved and rebuilt survives an addition. */
  lemma AdmitKeeps(o: Oracle, ps: seq<ProviderEntry>, manifest: seq<Member>, baseUrl: Option<string>)
    requires Storable(ps) && !Tripping(o, ps) && Admit(o, ps, manifest, baseUrl).Success?
    ensures var merged := Admit(o, ps, manifest, baseUrl).value; Storable(merged) && !Tripping(o, merged)
  {
    hide Keyless, Chokes, VerifyManifest;
    var entry := TrustedEntry(o, JObj(manifest), baseUrl, true).value;
    WithoutKeyKeeps(o, ps, Pubkey(entry));
    ManifestRaises(o.trust, JObj(manifest));
    var w := WithoutKey(ps, Pubkey(entry));
    forall i | 0 <= i < |w + [entry]| ensures !Trips(o, (w + [entry])[i]) {
      assert i < |w| ==> !Trips(o, w[i]);
    }
  }

  /** Only configured providers can make a rebuild raise: what directories give has been verified. */
  lemma OnlyProvidersTrip(o: Oracle, providers: seq<ProviderEntry>, directories: seq<string>, contents: Contents)
    ensures BuildCrashes(o, providers, directories, Answering(o, contents)) <==> Tripping(o, providers)
  {
    hide Tripping, Answer;
    forall i | 0 <= i < |directories| && Answering(o, contents)(directories[i]).Some?
      ensures !Tripping(o, Answering(o, contents)(directories[i]).value)
    {
      DiscoveredNeverTrips(o, contents(directories[i]));
    }
  }

  /** Exactly one text leaves, wherever it stands, and the others are as often there as before. */
  lemma {:induction false} WithoutTextCounts(specs: seq<string>, spec: string, d: string)
    ensures multiset(WithoutText(specs, spec))[d] == if d == spec then 0 else multiset(specs)[d]
  {
    if specs != [] {
      WithoutTextCounts(specs[1..], spec, d);
      assert specs == [specs[0]] + specs[1..];
    }
  }

  /** Admitting a provider once more changes nothing. */
  lemma AdmitTwice(o: Oracle, ps: seq<ProviderEntry>, manifest: seq<Member>, baseUrl: Option<string>)
    requires Admit(o, ps, manifest, baseUrl).Success?
    ensures var merged := Admit(o, ps, manifest, baseUrl); Admit(o, merged.value, manifest, baseUrl) == merged
  {
    hide VerifyManifest, Text;
    var e := TrustedEntry(o, JObj(manifest), baseUrl, true).value;
    var w := WithoutKey(ps, Pubkey(e));
    var merged := w + [e];
    WithoutKeyExact(ps, Pubkey(e));
    EntryKeyed(o, manifest, baseUrl);
    forall i | 0 <= i < |merged|
      ensures Pubkey(merged[i]).Some? && !(merged[i].baseUrl == e.baseUrl && Pubkey(merged[i]) != Pubkey(e))
    {
      if i < |w| {
        assert w[i] in ps;
        var k :| 0 <= k < |ps| && ps[k] == w[i];
      }
    }
    assert !PinnedElsewhere(merged, e) && !Keyless(merged);
    WithoutLast(w, e);
  }

  lemma EntryKeyed(o: Oracle, manifest: seq<Member>, baseUrl: Option<string>)
    ensures var t := TrustedEntry(o, JObj(manifest), baseUrl, true); t.Success? ==> Pubkey(t.value).Some?
  {
  }

  lemma {:induction false} WithoutLast(w: seq<ProviderEntry>, e: ProviderEntry)
    requires forall x :: x in w ==> Pubkey(x) != Pubkey(e)
    ensures WithoutKey(w + [e], Pubkey(e)) == w
  {
    hide Pubkey;
    if w == [] {
      assert (w + [e])[1..] == [];
    } else {
      assert (w + [e])[1..] == w[1..] + [e];
      WithoutLast(w[1..], e);
    }
  }

  /** Repeating a request changes nothing. */
  lemma ConfiguredTwice(o: Oracle, c: AppConfig, op: Operation)
    ensures Configured(o, Configured(o, c, op), op) == Configured(o, c, op)
  {
    hide Admit;
    match op
    case Add(manifest, baseUrl) =>
      if Admit(o, c.providers, manifest, baseUrl).Success? {
        AdmitTwice(o, c.providers, manifest, baseUrl);
      }
    case Remove(pubkey) =>
      WithoutKeyExact(c.providers, Some(pubkey));
      WithoutAbsent(WithoutKey(c.providers, Some(pubkey)), Some(pubkey));
    case Unfollow(spec) =>
      WithoutTextCounts(c.directories, spec, spec);
      WithoutAbsentText(WithoutText(c.directories, spec), spec);
    case _ =>
  }

  lemma AdmitPinned(o: Oracle, ps: seq<ProviderEntry>, manifest: seq<Member>, baseUrl: Option<string>)
    requires Pinned(o, ps) && Admit(o, ps, manifest, baseUrl).Success?
    ensures Pinned(o, Admit(o, ps, manifest, baseUrl).value)
  {
    hide Pinned, VerifyManifest, Keyless, Text, Pubkey, WithoutKey;
    var entry := TrustedEntry(o, JObj(manifest), baseUrl, true).value;
    assert Trusted(o, entry);
    MergePinned(o, ps, entry);
  }

  /** A provider list made only by adding and removing stays pinned and trusted. */
  lemma {:induction false} ConfiguredPinned(o: Oracle, c: AppConfig, ops: seq<Operation>)
    requires Pinned(o, c.providers)
    ensures Pinned(o, ConfiguredBy(o, c, ops).providers)
  {
    hide Pinned, Admit, WithoutKey, UnsafeSpec, WithoutText;
    if ops != [] {
      var before := ConfiguredBy(o, c, ops[..|ops| - 1]);
      ConfiguredPinned(o, c, ops[..|ops| - 1]);
      match ops[|ops| - 1]
      case Add(manifest, baseUrl) =>
        if Admit(o, before.providers, manifest, baseUrl).Success? {
          AdmitPinned(o, before.providers, manifest, baseUrl);
        }
      case Remove(pubkey) => WithoutKeyPinned(o, before.providers, Some(pubkey));
      case _ =>
    }
  }

  /**
   * Rebuilding such a list drops nothing: without directories the backend is the list itself, and
   * with them, whatever they answer, every configured key is still routed.
   */
  lemma BackendKeepsProviders(o: Oracle, c: AppConfig, local: Option<LocalProvider>, contents: Contents)
    requires Pinned(o, c.providers)
    ensures Build(o, c.providers, [], Answering(o, contents)) == Building(c.providers, [])
    ensures forall p :: p in c.providers ==> HasEntry(FreshBackend(o, c, local, contents).entries, Pubkey(p))
  {
    RebuildKeeps(o, c.providers);
    forall p | p in c.providers ensures HasEntry(FreshBackend(o, c, local, contents).entries, Pubkey(p)) {
      var b := AddAll(o, Building([], []), c.providers);
      var registry := AddDirectories(o, b, c.directories, Answering(o, contents)).pinned;
      assert HasEntry(b.pinned, Pubkey(p));
      DirectoriesKeepKeys(o, b, c.directories, Answering(o, contents), Pubkey(p));
      var i :| 0 <= i < |registry| && Pubkey(registry[i]) == Pubkey(p);
      assert FreshBackend(o, c, local, contents).entries[i] == registry[i];
    }
  }
}
