/**
 * Connection-configuration resolution (src/lib/supabase-config.ts): which
 * backend project, given by a url and a public ("anon") key, the app talks to.
 * A configuration saved in local storage wins over the one the deployment
 * provides through its environment.
 */
module SupabaseConfig {

  import opened Common
  import opened JsText
  import Json
  import opened Storage

  /** The single local-storage key the configuration lives under. */
  const StorageKey := "ledger_supabase_config_v1"

  /** The message `saveSupabaseConfig` throws for an invalid configuration. */
  const InvalidConfigMessage := "Invalid Supabase config"

  /** `SupabaseConnectionConfig` */
  datatype Config = Config(url: string, anonKey: string)

  /**
   * A property read off a value of unknown shape: absent (`undefined`), a
   * string, or some other JavaScript value, which is truthy or falsy.
   */
  datatype Loose = Undefined | Str(text: string) | NonString(truthy: bool)

  /** `Partial<SupabaseConnectionConfig>` as it may come out of `JSON.parse`. */
  datatype LooseConfig = LooseConfig(url: Loose, anonKey: Loose)

  /**
   * What `JSON.parse` makes of a stored string: it throws, or yields null,
   * an object, or another value (a number, string, boolean or array), whose
   * `url` and `anonKey` properties read as undefined.
   */
  datatype JsonDoc = Malformed | JsonNull | JsonOther | JsonObject(fields: LooseConfig)

  /** `parseConfig` either throws a TypeError or returns a configuration or null. */
  datatype ParseOutcome = Threw | Returned(config: Option<Config>)

  /**
   * What the code cannot see: whether a `window` exists (it does not during
   * server rendering), `JSON.parse`, and the protocol `new URL(s)` reports
   * (None when the constructor throws).
   */
  datatype Runtime = Runtime(
    hasWindow: bool,
    jsonParse: string -> JsonDoc,
    protocolOf: string -> Option<string>)

  /** `NEXT_PUBLIC_SUPABASE_URL` and `NEXT_PUBLIC_SUPABASE_ANON_KEY`, each possibly unset. */
  datatype EnvVars = EnvVars(url: Option<string>, anonKey: Option<string>)

  predicate EndsInSpace(s: string) {
    s != [] && IsSpace(s[|s| - 1])
  }

  predicate Truthy(v: Loose) {
    (v.Str? && v.text != "") || (v.NonString? && v.truthy)
  }

  function FromText(v: Option<string>): Loose {
    if v.Some? then Str(v.value) else Undefined
  }

  function AsLoose(c: Config): LooseConfig {
    LooseConfig(Str(c.url), Str(c.anonKey))
  }

  /**
   * What `parseConfig` guarantees of every configuration it returns: a
   * non-empty url that starts with no white space, ends with no '/', and
   * parses with protocol `https:` or `http:`; a non-empty, trimmed key.
   */
  predicate Acceptable(c: Config, protocolOf: string -> Option<string>) {
    && c.url != "" && !IsSpace(c.url[0]) && c.url[|c.url| - 1] != '/'
    && c.anonKey != "" && Trim(c.anonKey) == c.anonKey
    && (protocolOf(c.url) == Some("https:") || protocolOf(c.url) == Some("http:"))
  }

  /** `s.replace(/\/+$/, '')` */
  function StripTrailingSlashes(s: string): (r: string)
    ensures |r| <= |s| && r == s[..|r|]
    ensures r == [] || r[|r| - 1] != '/'
    ensures forall i :: |r| <= i < |s| ==> s[i] == '/'
  {
    if s != [] && s[|s| - 1] == '/' then StripTrailingSlashes(s[..|s| - 1]) else s
  }

  /** `normalizeUrl`: surrounding white space trimmed, then every trailing '/' removed. */
  function NormalizeUrl(raw: string): (r: string)
    ensures r == [] || (!IsSpace(r[0]) && r[|r| - 1] != '/')
  {
    TrimEdges(raw);
    StripTrailingSlashes(Trim(raw))
  }

  /** A normalised url that does not end in white space normalises to itself. */
  lemma NormalizeUrlStable(raw: string)
    requires !EndsInSpace(NormalizeUrl(raw))
    ensures NormalizeUrl(NormalizeUrl(raw)) == NormalizeUrl(raw)
  {
    TrimIdentity(NormalizeUrl(raw));
  }

  /**
   * Trimming happens before the slashes are stripped, so white space in front
   * of a trailing '/' survives one normalisation and not a second.
   */
  lemma NormalizeUrlNotIdempotent()
    ensures NormalizeUrl("a /") == "a "
    ensures NormalizeUrl("a ") == "a"
  {
    assert "a /"[..2] == "a " && "a "[..1] == "a";
    assert StripTrailingSlashes("a ") == "a ";
    assert StripTrailingSlashes("a /") == "a ";
    assert TrimEnd("a") == "a";
    assert TrimEnd("a ") == "a";
  }

  /** `parseConfig` */
  function ParseConfig(input: Option<LooseConfig>, protocolOf: string -> Option<string>): (r: ParseOutcome)
    ensures r == Threw <==>
      input.Some? && Truthy(input.value.url) && Truthy(input.value.anonKey)
      && (!input.value.url.Str? || !input.value.anonKey.Str?)
    ensures r.Returned? && r.config.Some? ==> Acceptable(r.config.value, protocolOf)
  {
    if input.None? || !Truthy(input.value.url) || !Truthy(input.value.anonKey) then Returned(None)
    else if !input.value.url.Str? || !input.value.anonKey.Str? then Threw  // `.trim` of a non-string
    else
      var url := NormalizeUrl(input.value.url.text);
      var anonKey := Trim(input.value.anonKey.text);
      if url == "" || anonKey == "" then Returned(None)
      else
        match protocolOf(url)
        case None => Returned(None)
        case Some(protocol) =>
          if protocol != "https:" && protocol != "http:" then Returned(None)
          else
            TrimIdempotent(input.value.anonKey.text);
            Returned(Some(Config(url, anonKey)))
  }

  /**
   * `parseConfig` accepts exactly the string pairs whose normalised url and
   * trimmed key are non-empty and whose url parses with protocol `https:` or
   * `http:`, and then returns those normalised values.
   */
  lemma ParseConfigAccepts(input: Option<LooseConfig>, protocolOf: string -> Option<string>)
    ensures (ParseConfig(input, protocolOf).Returned? && ParseConfig(input, protocolOf).config.Some?) <==>
      && input.Some? && input.value.url.Str? && input.value.anonKey.Str?
      && NormalizeUrl(input.value.url.text) != "" && Trim(input.value.anonKey.text) != ""
      && (protocolOf(NormalizeUrl(input.value.url.text)) == Some("https:")
          || protocolOf(NormalizeUrl(input.value.url.text)) == Some("http:"))
    ensures ParseConfig(input, protocolOf).Returned? && ParseConfig(input, protocolOf).config.Some? ==>
      ParseConfig(input, protocolOf).config.value
        == Config(NormalizeUrl(input.value.url.text), Trim(input.value.anonKey.text))
  {
  }

  /** `parseConfig` throws only for a truthy property that is not a string. */
  lemma ParseConfigCanThrow(protocolOf: string -> Option<string>)
    ensures ParseConfig(Some(LooseConfig(NonString(true), Str("k"))), protocolOf) == Threw
    ensures forall url, anonKey :: ParseConfig(Some(LooseConfig(FromText(url), FromText(anonKey))), protocolOf).Returned?
  {
  }

  /** A url with no surrounding white space and no trailing '/' is already normal. */
  lemma CleanUrlIsNormal(url: string)
    requires url != [] && !IsSpace(url[0]) && !IsSpace(url[|url| - 1]) && url[|url| - 1] != '/'
    ensures NormalizeUrl(url) == url
  {
    TrimIdentity(url);
    assert StripTrailingSlashes(url) == url;
  }

  /** Already-normal values with an allowed protocol are accepted unchanged. */
  lemma ParseAcceptsNormal(c: Config, protocolOf: string -> Option<string>)
    requires c.url != "" && NormalizeUrl(c.url) == c.url
    requires c.anonKey != "" && Trim(c.anonKey) == c.anonKey
    requires protocolOf(c.url) == Some("https:") || protocolOf(c.url) == Some("http:")
    ensures ParseConfig(Some(AsLoose(c)), protocolOf) == Returned(Some(c))
  {
  }

  /**
   * A configuration `parseConfig` accepted, read back as a plain object, is
   * accepted again unchanged, provided its url does not end in white space.
   */
  lemma ParseRoundTrip(c: Config, protocolOf: string -> Option<string>)
    requires Acceptable(c, protocolOf) && !EndsInSpace(c.url)
    ensures ParseConfig(Some(AsLoose(c)), protocolOf) == Returned(Some(c))
  {
    CleanUrlIsNormal(c.url);
    ParseAcceptsNormal(c, protocolOf);
  }

  /** The configuration a typed caller passes, validated and normalised, or None. */
  function Validated(c: Config, protocolOf: string -> Option<string>): (r: Option<Config>)
    ensures r.Some? ==> Acceptable(r.value, protocolOf)
  {
    match ParseConfig(Some(AsLoose(c)), protocolOf)
    case Returned(v) => v
    case Threw => None  // cannot happen: both properties are strings
  }

  /** `getEnvSupabaseConfig` */
  function EnvConfig(rt: Runtime, env: EnvVars): (r: Option<Config>)
    ensures r.Some? ==> Acceptable(r.value, rt.protocolOf)
    ensures r.None? <==> ParseConfig(Some(LooseConfig(FromText(env.url), FromText(env.anonKey))), rt.protocolOf) == Returned(None)
  {
    match ParseConfig(Some(LooseConfig(FromText(env.url), FromText(env.anonKey))), rt.protocolOf)
    case Returned(v) => v
    case Threw => None  // cannot happen: environment variables are strings
  }

  /** `JSON.stringify` of a configuration: `{"url":...,"anonKey":...}`. */
  function StringifyConfig(c: Config): string {
    Json.StringifyObject([("url", c.url), ("anonKey", c.anonKey)])
  }

  /**
   * The one thing assumed of `JSON.parse`: it reads back what `JSON.stringify`
   * wrote. A parser can meet it because `StringifyConfig` is injective: the
   * two fields are quoted with JSON escaping, which no unescaped '"' can end
   * early, so distinct configurations have distinct texts.
   */
  ghost predicate ParseInvertsStringify(rt: Runtime) {
    forall c: Config :: rt.jsonParse(StringifyConfig(c)) == JsonObject(AsLoose(c))
  }

  /** A caught exception becomes null. */
  function Caught(o: ParseOutcome): Option<Config> {
    if o.Threw? then None else o.config
  }

  /**
   * `getStoredSupabaseConfig` over the storage contents: no window, a missing
   * or empty entry, malformed JSON, a value of the wrong shape and a
   * `parseConfig` that throws all give null.
   */
  function StoredIn(rt: Runtime, items: map<string, string>): (r: Option<Config>)
    ensures r.Some? ==> Acceptable(r.value, rt.protocolOf)
    ensures (!rt.hasWindow || StorageKey !in items || items[StorageKey] == "") ==> r.None?
    ensures StorageKey in items && !rt.jsonParse(items[StorageKey]).JsonObject? ==> r.None?
  {
    if !rt.hasWindow || StorageKey !in items || items[StorageKey] == "" then None
    else
      match rt.jsonParse(items[StorageKey])
      case Malformed => None
      case JsonNull => Caught(ParseConfig(None, rt.protocolOf))
      case JsonOther => Caught(ParseConfig(Some(LooseConfig(Undefined, Undefined)), rt.protocolOf))
      case JsonObject(fields) => Caught(ParseConfig(Some(fields), rt.protocolOf))
  }

  /**
   * A stored object whose `url` or `anonKey` is not a string gives null:
   * either `parseConfig` rejects it or its `.trim()` throws and is caught.
   */
  lemma StoredWrongShape(rt: Runtime, items: map<string, string>)
    requires StorageKey in items && rt.jsonParse(items[StorageKey]).JsonObject?
    requires var f := rt.jsonParse(items[StorageKey]).fields; !f.url.Str? || !f.anonKey.Str?
    ensures StoredIn(rt, items) == None
  {
    if rt.hasWindow && items[StorageKey] != "" {
      ParseConfigAccepts(Some(rt.jsonParse(items[StorageKey]).fields), rt.protocolOf);
    }
  }

  /** `getStoredSupabaseConfig` */
  function StoredConfig(rt: Runtime, ls: LocalStorage): Option<Config>
    reads ls
  {
    StoredIn(rt, ls.items)
  }

  /** `resolveSupabaseConfig`: the stored configuration if there is one, else the environment's. */
  function ResolveIn(rt: Runtime, items: map<string, string>, env: EnvVars): (r: Option<Config>)
    ensures r.Some? ==> Acceptable(r.value, rt.protocolOf)
    ensures StoredIn(rt, items).Some? ==> r == StoredIn(rt, items)
    ensures StoredIn(rt, items).None? ==> r == EnvConfig(rt, env)
  {
    match StoredIn(rt, items)
    case Some(c) => Some(c)
    case None => EnvConfig(rt, env)
  }

  function ResolveConfig(rt: Runtime, ls: LocalStorage, env: EnvVars): Option<Config>
    reads ls
  {
    ResolveIn(rt, ls.items, env)
  }

  /**
   * A stored entry that `saveSupabaseConfig` wrote for an accepted
   * configuration reads back as that configuration.
   */
  lemma StoredRoundTrip(rt: Runtime, items: map<string, string>, c: Config)
    requires ParseInvertsStringify(rt) && rt.hasWindow
    requires Acceptable(c, rt.protocolOf) && !EndsInSpace(c.url)
    requires StorageKey in items && items[StorageKey] == StringifyConfig(c)
    ensures StoredIn(rt, items) == Some(c)
    ensures ResolveIn(rt, items, EnvVars(None, None)) == Some(c)
  {
    assert rt.jsonParse(StringifyConfig(c)) == JsonObject(AsLoose(c));
    ParseRoundTrip(c, rt.protocolOf);
  }

  /** With the entry removed, resolution falls back to the environment. */
  lemma ResolveAfterClear(rt: Runtime, items: map<string, string>, env: EnvVars)
    ensures StoredIn(rt, items - {StorageKey}) == None
    ensures ResolveIn(rt, items - {StorageKey}, env) == EnvConfig(rt, env)
  {
  }

  /** `saveSupabaseConfig` */
  method SaveConfig(rt: Runtime, ls: LocalStorage, c: Config) returns (thrown: Option<string>)
    modifies ls
    ensures !rt.hasWindow ==> thrown == None && ls.items == old(ls.items)
    ensures rt.hasWindow && Validated(c, rt.protocolOf).None? ==>
      thrown == Some(InvalidConfigMessage) && ls.items == old(ls.items)
    ensures rt.hasWindow && Validated(c, rt.protocolOf).Some? ==>
      thrown == None
      && ls.items == old(ls.items)[StorageKey := StringifyConfig(Validated(c, rt.protocolOf).value)]
    ensures rt.hasWindow && thrown == None && ParseInvertsStringify(rt)
            && !EndsInSpace(Validated(c, rt.protocolOf).value.url) ==>
      StoredConfig(rt, ls) == Validated(c, rt.protocolOf)
  {
    if !rt.hasWindow {
      return None;
    }
    var parsed := Validated(c, rt.protocolOf);
    if parsed.None? {
      return Some(InvalidConfigMessage);
    }
    ls.SetItem(StorageKey, StringifyConfig(parsed.value));
    if ParseInvertsStringify(rt) && !EndsInSpace(parsed.value.url) {
      StoredRoundTrip(rt, ls.items, parsed.value);
    }
    thrown := None;
  }

  /** `clearSupabaseConfig` */
  method ClearConfig(rt: Runtime, ls: LocalStorage)
    modifies ls
    ensures ls.items == if rt.hasWindow then old(ls.items) - {StorageKey} else old(ls.items)
    ensures StoredConfig(rt, ls) == None
  {
    if !rt.hasWindow {
      return;
    }
    ls.RemoveItem(StorageKey);
  }
}
