/** Where the CLI gets the marketplace registry from, and the two lookups
    it makes in it. The three sources are parameters: the package's own
    copy (if readable), the cache file (if readable), the remote response,
    and whether writing the cache succeeds. Clock readings are parameters
    too. */
module Config {

  import opened Base
  import opened Registry

  /** The marketplace registry: its plugin list. */
  datatype Marketplace = Marketplace(plugins: seq<Plugin>)

  /** One hour, in milliseconds. */
  const CacheTtl: int := 1000 * 60 * 60

  /** The cache file's content. A missing timestamp is None: JavaScript
      then compares `NaN`, which is never greater than the TTL, so such an
      entry never goes stale. A numeric timestamp is Some; other JSON values
      there are not modelled. A missing `data` field is None. */
  datatype CacheEntry = CacheEntry(timestamp: Option<int>, data: Option<Marketplace>)

  /** The remote response: `ok` with its status and body, or no response
      at all. */
  datatype Response = Response(ok: bool, status: nat, body: Marketplace) | Unreachable

  /** The options, each defaulting as in the source: cache on, no forced
      refresh, local copy on. */
  datatype Options = Options(useCache: bool, forceRefresh: bool, useLocal: bool)

  const DefaultOptions: Options := Options(true, false, true)

  /** The world one call sees: the local copy, the cache file, the clock
      when the cache is read and when it is written, the remote response,
      and whether the cache write succeeds. */
  datatype Sources = Sources(local: Option<Marketplace>, cache: Option<CacheEntry>, readTime: int,
                             writeTime: int, remote: Response, writeOk: bool)

  /** What a call yields: the registry or the thrown message, and the cache
      entry written, if any. */
  datatype Fetched = Fetched(config: Result<Marketplace, string>, written: Option<CacheEntry>)

  /** Whether an entry is still fresh at time `now`: stale only when
      strictly more than the TTL has passed. */
  predicate Fresh(entry: CacheEntry, now: int) {
    entry.timestamp.None? || !(now - entry.timestamp.value > CacheTtl)
  }

  /** `getCachedConfig`: the cached registry, if there is a fresh one. */
  function CachedConfig(cache: Option<CacheEntry>, now: int): (r: Option<Marketplace>)
    ensures r.Some? <==> cache.Some? && Fresh(cache.value, now) && cache.value.data.Some?
    ensures r.Some? ==> r == cache.value.data
  {
    match cache
    case None => None
    case Some(entry) => if Fresh(entry, now) then entry.data else None
  }

  /** The decimal digits of `n`. */
  function Decimal(n: nat): (s: string)
    ensures |s| >= 1
    ensures forall k :: 0 <= k < |s| ==> '0' <= s[k] <= '9'
    decreases n
  {
    var digit := [(48 + n % 10) as char];
    if n < 10 then digit else Decimal(n / 10) + digit
  }

  /** `fetchRemoteConfig`: the body of an ok response, else the thrown
      message. */
  function FetchRemote(remote: Response): (r: Result<Marketplace, string>)
    ensures r.Ok? <==> remote.Response? && remote.ok
    ensures r.Ok? ==> r.value == remote.body
    ensures remote.Response? && !remote.ok ==> r == Err("Failed to fetch marketplace config: " + Decimal(remote.status))
  {
    match remote
    case Unreachable => Err("fetch failed")
    case Response(ok, status, body) =>
      if ok then Ok(body) else Err("Failed to fetch marketplace config: " + Decimal(status))
  }

  /** `getMarketplaceConfig`: the local copy when allowed and present, else
      a fresh cache entry when the cache is allowed and not bypassed, else
      the remote registry, which is then written to the cache; a failed
      write is ignored. */
  function GetMarketplaceConfig(opts: Options, src: Sources): (r: Fetched)
    ensures opts.useLocal && src.local.Some? ==> r == Fetched(Ok(src.local.value), None)
    ensures r.written.Some? ==>
              && r.config.Ok? && src.writeOk
              && r.written == Some(CacheEntry(Some(src.writeTime), Some(r.config.value)))
  {
    if opts.useLocal && src.local.Some? then Fetched(Ok(src.local.value), None)
    else
      var cached := if opts.useCache && !opts.forceRefresh then CachedConfig(src.cache, src.readTime) else None;
      if cached.Some? then Fetched(Ok(cached.value), None)
      else
        match FetchRemote(src.remote)
        case Err(e) => Fetched(Err(e), None)
        case Ok(config) =>
          Fetched(Ok(config), if src.writeOk then Some(CacheEntry(Some(src.writeTime), Some(config))) else None)
  }

  /** The precedence, case by case: local, then cache (only when allowed
      and not bypassed), then remote. */
  lemma Precedence(opts: Options, src: Sources)
    ensures var r := GetMarketplaceConfig(opts, src);
      && (!(opts.useLocal && src.local.Some?) && opts.useCache && !opts.forceRefresh
            && CachedConfig(src.cache, src.readTime).Some?
          ==> r == Fetched(Ok(CachedConfig(src.cache, src.readTime).value), None))
      && (!(opts.useLocal && src.local.Some?)
            && !(opts.useCache && !opts.forceRefresh && CachedConfig(src.cache, src.readTime).Some?)
          ==> r.config == FetchRemote(src.remote))
  {
  }

  /** `forceRefresh` skips the cache but not the local copy. */
  lemma ForceRefreshKeepsLocal(src: Sources)
    requires src.local.Some?
    ensures GetMarketplaceConfig(Options(true, true, true), src).config == Ok(src.local.value)
  {
  }

  /** A failed cache write does not change what the call returns. */
  lemma WriteFailureIgnored(opts: Options, src: Sources)
    ensures GetMarketplaceConfig(opts, src.(writeOk := false)).config
         == GetMarketplaceConfig(opts, src.(writeOk := true)).config
    ensures GetMarketplaceConfig(opts, src.(writeOk := false)).written.None?
  {
  }

  /** An entry written at `t` is fresh exactly up to and including
      `t + CacheTtl`. */
  lemma FreshBoundary(data: Marketplace, t: int, now: int)
    ensures CachedConfig(Some(CacheEntry(Some(t), Some(data))), now).Some? <==> now <= t + CacheTtl
  {
  }

  /** The cache round trip: what a remote fetch writes, a later call
      without a local copy returns again, without consulting the remote,
      as long as no more than the TTL has passed; after that it goes to
      the remote again. */
  lemma CacheRoundTrip(src: Sources, later: Sources)
    requires src.local.None? && CachedConfig(src.cache, src.readTime).None?
    requires src.remote.Response? && src.remote.ok && src.writeOk
    requires later.local.None?
    requires later.cache == GetMarketplaceConfig(DefaultOptions, src).written
    ensures GetMarketplaceConfig(DefaultOptions, src).written.Some?
    ensures later.readTime - src.writeTime <= CacheTtl ==>
      GetMarketplaceConfig(DefaultOptions, later).config == Ok(src.remote.body)
    ensures later.readTime - src.writeTime > CacheTtl ==>
      GetMarketplaceConfig(DefaultOptions, later).config == FetchRemote(later.remote)
  {
  }

  /** `validatePluginName`: the first entry with that name, or nothing. */
  function ValidatePluginName(name: string, config: Marketplace): (r: Option<Plugin>)
    ensures r.None? <==> forall k :: 0 <= k < |config.plugins| ==> config.plugins[k].name != name
    ensures r.Some? ==> exists k :: (0 <= k < |config.plugins| && config.plugins[k] == r.value && r.value.name == name
                                     && forall j :: 0 <= j < k ==> config.plugins[j].name != name)
  {
    Find(config.plugins, name)
  }

  const Common: string := "common"

  /** `getPluginDependencies`: every plugin but `common` itself depends on
      the first `common` entry, when there is one. */
  function GetPluginDependencies(name: string, config: Marketplace): (deps: seq<Plugin>)
    ensures |deps| <= 1
    ensures deps == [] <==> name == Common || forall k :: 0 <= k < |config.plugins| ==> config.plugins[k].name != Common
    ensures deps != [] ==> exists k :: (0 <= k < |config.plugins| && config.plugins[k] == deps[0] && deps[0].name == Common
                                        && forall j :: 0 <= j < k ==> config.plugins[j].name != Common)
  {
    if name == Common then []
    else
      match Find(config.plugins, Common)
      case None => []
      case Some(common) => [common]
  }
}
