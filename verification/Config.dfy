/** The persisted configuration (apps/openai-proxy/src/sip_openai_proxy/config.py). */
module Configs {
  import opened Prelude
  import opened Json
  import opened Discovery

  datatype LocalUse = LocalUse(runtime: string, model: string)

  datatype AppConfig = AppConfig(
    providers: seq<ProviderEntry>,
    directories: seq<string>,
    apiKey: Option<string>,
    token: Option<string>,
    onboardingComplete: bool,
    localUse: Option<LocalUse>
  )

  const DEFAULT_CONFIG := AppConfig([], [], None, None, false, None)

  function TextOrNull(t: Option<string>): Json {
    if t.Some? then JStr(t.value) else JNull
  }

  function ProvidersJson(ps: seq<ProviderEntry>): seq<Json> {
    if ps == [] then []
    else [JObj([Member("base_url", JStr(ps[0].baseUrl)), Member("manifest", ps[0].manifest)])] + ProvidersJson(ps[1..])
  }

  function TextsJson(ts: seq<string>): seq<Json> {
    if ts == [] then [] else [JStr(ts[0])] + TextsJson(ts[1..])
  }

  function LocalUseJson(l: LocalUse): Json {
    JObj([Member("runtime", JStr(l.runtime)), Member("model", JStr(l.model))])
  }

  /** AppConfig.to_json */
  function ToJson(c: AppConfig): Json {
    JObj([
      Member("version", JInt(1)),
      Member("providers", JArr(ProvidersJson(c.providers))),
      Member("directories", JArr(TextsJson(c.directories))),
      Member("api_key", TextOrNull(c.apiKey)),
      Member("token", TextOrNull(c.token)),
      Member("onboarding_complete", JBool(c.onboardingComplete)),
      Member("local_use", if c.localUse.Some? then LocalUseJson(c.localUse.value) else JNull)
    ])
  }

  /** A list field; a missing one reads as empty. */
  function ListField(ms: seq<Member>, key: string): Option<seq<Json>> {
    match Get(ms, key)
    case None => Some([])
    case Some(JArr(items)) => Some(items)
    case _ => None
  }

  function ParseProviders(items: seq<Json>): Option<seq<ProviderEntry>> {
    if items == [] then Some([])
    else
      var rest := ParseProviders(items[1..]);
      match items[0]
      case JObj(ms) =>
        (match (Get(ms, "base_url"), Get(ms, "manifest"))
         case (Some(JStr(url)), Some(JObj(m))) =>
           if rest.Some? then Some([ProviderEntry(url, JObj(m))] + rest.value) else None
         case _ => None)
      case _ => None
  }

  function ParseTexts(items: seq<Json>): Option<seq<string>> {
    if items == [] then Some([])
    else
      var rest := ParseTexts(items[1..]);
      if items[0].JStr? && rest.Some? then Some([items[0].s] + rest.value) else None
  }

  function TextField(ms: seq<Member>, key: string): Option<Option<string>> {
    match Get(ms, key)
    case None => Some(None)
    case Some(JNull) => Some(None)
    case Some(JStr(s)) => Some(Some(s))
    case _ => None
  }

  function ParseLocalUse(j: Option<Json>): Option<Option<LocalUse>> {
    match j
    case None => Some(None)
    case Some(JNull) => Some(None)
    case Some(JObj(ms)) =>
      if ms == [] then Some(None)
      else
        (match (Get(ms, "runtime"), Get(ms, "model"))
         case (Some(JStr(r)), Some(JStr(m))) => Some(Some(LocalUse(r, m)))
         case _ => None)
    case _ => None
  }

  /** AppConfig.from_json on documents whose fields have the expected types; None otherwise. */
  function FromJson(data: Json): Option<AppConfig> {
    if !data.JObj? then None
    else
      var ms := data.members;
      var items, specs := ListField(ms, "providers"), ListField(ms, "directories");
      var apiKey, token := TextField(ms, "api_key"), TextField(ms, "token");
      var localUse := ParseLocalUse(Get(ms, "local_use"));
      if items.None? || specs.None? || apiKey.None? || token.None? || localUse.None? then None
      else
        var providers, directories := ParseProviders(items.value), ParseTexts(specs.value);
        if providers.None? || directories.None? then None
        else
          Some(AppConfig(providers.value, directories.value, apiKey.value, token.value,
                         Get(ms, "onboarding_complete") == Some(JBool(true)), localUse.value))
  }

  /** Manifests are JSON objects. */
  predicate Storable(ps: seq<ProviderEntry>) {
    forall i :: 0 <= i < |ps| ==> ps[i].manifest.JObj?
  }

  lemma {:induction false} ProvidersRoundTrip(ps: seq<ProviderEntry>)
    requires Storable(ps)
    ensures ParseProviders(ProvidersJson(ps)) == Some(ps)
  {
    if ps != [] {
      ProvidersRoundTrip(ps[1..]);
      var js := ProvidersJson(ps);
      assert js[1..] == ProvidersJson(ps[1..]);
      var ms := js[0].members;
      assert ms[1..][0] == ms[1];
      assert Get(ms, "base_url") == Some(JStr(ps[0].baseUrl)) && Get(ms, "manifest") == Some(ps[0].manifest);
      assert ps == [ps[0]] + ps[1..];
    }
  }

  lemma {:induction false} TextsRoundTrip(ts: seq<string>)
    ensures ParseTexts(TextsJson(ts)) == Some(ts)
  {
    if ts != [] {
      TextsRoundTrip(ts[1..]);
      assert TextsJson(ts)[1..] == TextsJson(ts[1..]);
      assert ts == [ts[0]] + ts[1..];
    }
  }

  lemma LocalUseRoundTrip(l: Option<LocalUse>)
    ensures ParseLocalUse(Some(if l.Some? then LocalUseJson(l.value) else JNull)) == Some(l)
  {
    if l.Some? {
      var ls := LocalUseJson(l.value).members;
      assert "runtime"[0] != "model"[0];
      GetAt(ls, 0);
      GetAt(ls, 1);
    }
  }

  /** The seven fields of a saved document are found under their keys. */
  lemma FieldsOf(c: AppConfig)
    ensures var ms := ToJson(c).members;
            && Get(ms, "version") == Some(JInt(1))
            && Get(ms, "providers") == Some(JArr(ProvidersJson(c.providers)))
            && Get(ms, "directories") == Some(JArr(TextsJson(c.directories)))
            && Get(ms, "api_key") == Some(TextOrNull(c.apiKey))
            && Get(ms, "token") == Some(TextOrNull(c.token))
            && Get(ms, "onboarding_complete") == Some(JBool(c.onboardingComplete))
            && Get(ms, "local_use") == Some(if c.localUse.Some? then LocalUseJson(c.localUse.value) else JNull)
  {
    hide Get, ProvidersJson, TextsJson, LocalUseJson, TextOrNull;
    var ms := ToJson(c).members;
    var keys := ["version", "providers", "directories", "api_key", "token", "onboarding_complete", "local_use"];
    assert keys[0][0] == 'v' && keys[1][0] == 'p' && keys[2][0] == 'd' && keys[3][0] == 'a';
    assert keys[4][0] == 't' && keys[5][0] == 'o' && keys[6][0] == 'l';
    assert forall i :: 0 <= i < |ms| ==> ms[i].key == keys[i];
    for i := 0 to |ms|
      invariant forall k :: 0 <= k < i ==> Get(ms, ms[k].key) == Some(ms[k].value)
    {
      assert forall j :: 0 <= j < i ==> keys[j][0] != keys[i][0];
      GetAt(ms, i);
    }
  }

  /** What is missing from a saved file reads as its default. */
  lemma EmptyIsDefault()
    ensures FromJson(JObj([])) == Some(AppConfig([], [], None, None, false, None)) == Some(DEFAULT_CONFIG)
    ensures ParseLocalUse(Some(JObj([]))) == Some(None)
  {
  }

  /** A saved configuration loads as itself. */
  lemma ConfigRoundTrip(c: AppConfig)
    requires Storable(c.providers)
    ensures FromJson(ToJson(c)) == Some(c)
  {
    hide Get, ProvidersJson, TextsJson, LocalUseJson, ParseProviders, ParseTexts, ParseLocalUse;
    FieldsOf(c);
    ProvidersRoundTrip(c.providers);
    TextsRoundTrip(c.directories);
    LocalUseRoundTrip(c.localUse);
  }
}
