/**
 * The browser client cache (src/lib/supabase-browser.ts): one client per
 * resolved configuration, created on first use and never replaced or evicted.
 */
module SupabaseBrowser {

  import opened Common
  import opened Storage
  import opened SupabaseConfig

  /** The message thrown when no configuration resolves. */
  const NotConnectedMessage := "Supabase is not connected yet."

  /** A client handle as `createBrowserClient(url, anonKey)` builds it; its identity is the object's. */
  class Client {
    const url: string
    const anonKey: string

    constructor (url: string, anonKey: string)
      ensures this.url == url && this.anonKey == anonKey
    {
      this.url := url;
      this.anonKey := anonKey;
    }
  }

  /** The cache key `${url}::${anonKey}`. */
  function CacheKey(c: Config): (k: string)
    ensures |k| == |c.url| + 2 + |c.anonKey|
    ensures k[..|c.url|] == c.url && k[|c.url| + 2..] == c.anonKey
  {
    c.url + "::" + c.anonKey
  }

  /**
   * The separator is not escaped, so two different configurations can share a
   * key: a url ending in "::" against a key starting with "::".
   */
  lemma CacheKeyNotInjective()
    ensures Config("https://x.co/a::", "k") != Config("https://x.co/a", "::k")
    ensures CacheKey(Config("https://x.co/a::", "k")) == CacheKey(Config("https://x.co/a", "::k"))
  {
  }

  ghost predicate HasDoubleColon(s: string) {
    exists i :: 0 <= i < |s| - 1 && s[i] == ':' && s[i + 1] == ':'
  }

  /**
   * Keys do identify configurations when no url contains "::" and no key
   * starts with ':'.
   */
  lemma CacheKeyInjective(c1: Config, c2: Config)
    requires !HasDoubleColon(c1.url) && !HasDoubleColon(c2.url)
    requires (c1.anonKey == [] || c1.anonKey[0] != ':') && (c2.anonKey == [] || c2.anonKey[0] != ':')
    requires CacheKey(c1) == CacheKey(c2)
    ensures c1 == c2
  {
    var k := CacheKey(c1);
    if |c1.url| < |c2.url| {
      SeparatorClash(c1, c2, k);
      assert false;
    } else if |c2.url| < |c1.url| {
      SeparatorClash(c2, c1, k);
      assert false;
    } else {
      assert c1.url == k[..|c1.url|] == c2.url;
      assert c1.anonKey == k[|c1.url| + 2..] == c2.anonKey;
    }
  }

  /**
   * When the key of `a` equals the key of a configuration `b` with a longer
   * url, either `b`'s url contains "::" or `a`'s key starts with ':'.
   */
  lemma SeparatorClash(a: Config, b: Config, k: string)
    requires k == CacheKey(a) && k == CacheKey(b) && |a.url| < |b.url|
    ensures HasDoubleColon(b.url) || (a.anonKey != [] && a.anonKey[0] == ':')
  {
    var n := |a.url|;
    assert k[n] == ':' && k[n + 1] == ':';
    if n + 1 < |b.url| {
      assert b.url[n] == k[n] && b.url[n + 1] == k[n + 1];
    } else {
      // b's url ends with the first ':' of a's separator, so b's own
      // separator starts at n + 1 and k[n + 2] is the first character of a's key.
      assert k[n + 2] == ':';
      assert a.anonKey[0] == k[n + 2];
    }
  }

  /** The cache only grows: no entry is removed or replaced. */
  ghost predicate Extends(before: map<string, Client>, after: map<string, Client>) {
    forall key :: key in before ==> key in after && after[key] == before[key]
  }

  /** The module-level `clients` map. */
  class ClientCache {
    var clients: map<string, Client>

    constructor ()
      ensures clients == map[]
    {
      clients := map[];
    }

    /** `getSupabaseBrowserClient` */
    method GetClient(rt: Runtime, ls: LocalStorage, env: EnvVars) returns (r: Result<Client, string>)
      modifies this
      ensures Extends(old(clients), clients)
      ensures ResolveConfig(rt, ls, env).None? ==>
        r == Err(NotConnectedMessage) && clients == old(clients)
      ensures ResolveConfig(rt, ls, env).Some? ==>
        var config := ResolveConfig(rt, ls, env).value;
        var key := CacheKey(config);
        && r.Ok? && key in clients && clients[key] == r.value
        && (key in old(clients) ==> r.value == old(clients)[key] && clients == old(clients))
        && (key !in old(clients) ==>
              && fresh(r.value) && r.value.url == config.url && r.value.anonKey == config.anonKey
              && clients == old(clients)[key := r.value])
    {
      var config := ResolveConfig(rt, ls, env);
      if config.None? {
        return Err(NotConnectedMessage);
      }
      var key := CacheKey(config.value);
      if key in clients {
        return Ok(clients[key]);
      }
      var client := new Client(config.value.url, config.value.anonKey);
      clients := clients[key := client];
      r := Ok(client);
    }

    /** Two calls under the same resolved configuration return the same client. */
    method GetClientTwice(rt: Runtime, ls: LocalStorage, env: EnvVars) returns (first: Result<Client, string>, second: Result<Client, string>)
      modifies this
      ensures first == second
      ensures first.Err? <==> ResolveConfig(rt, ls, env).None?
    {
      first := GetClient(rt, ls, env);
      second := GetClient(rt, ls, env);
    }
  }
}
