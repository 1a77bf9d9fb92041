/**
 * `cache_auto.example.php` (orangescrum-cloud): pick a cache engine from the
 * `CACHE_ENGINE` preference and the loaded PHP extensions, then build the
 * six-entry `Cache` array for that engine. Values that only name PHP classes
 * are left implicit in the engine each entry belongs to.
 */
module CacheAuto {
  import opened Wrappers
  import opened Text
  import opened PhpEnv

  datatype Engine = Redis | Memcached | File

  /** The preference string naming each engine. */
  function EngineName(e: Engine): string {
    match e
    case Redis => "redis"
    case Memcached => "memcached"
    case File => "file"
  }

  /** Whether the PHP extension an engine needs is loaded (the file engine needs none). */
  function Available(e: Engine, hasRedis: bool, hasMemcached: bool): bool {
    match e
    case Redis => hasRedis
    case Memcached => hasMemcached
    case File => true
  }

  /** Redis over memcached over files. */
  function Rank(e: Engine): nat {
    match e
    case Redis => 2
    case Memcached => 1
    case File => 0
  }

  /** `strtolower(env('CACHE_ENGINE', 'auto'))`. */
  function Preference(env: Env): string {
    Lower(EnvOr(env, "CACHE_ENGINE", "auto"))
  }

  /** The selection chain: `auto`, `redis`, `memcached`, and the file fallback for everything else. */
  function SelectEngine(pref: string, hasRedis: bool, hasMemcached: bool): (e: Engine)
    // Never an engine whose extension is missing.
    ensures Available(e, hasRedis, hasMemcached)
    // An explicit engine is used exactly when it is available; nothing else is substituted.
    ensures pref == "redis" || pref == "memcached" ==> e == (if pref == "redis" then Redis else Memcached) || e == File
    ensures pref != "auto" && pref != "redis" && pref != "memcached" ==> e == File
  {
    if pref == "auto" then
      if hasRedis then Redis else if hasMemcached then Memcached else File
    else if pref == "redis" then
      if hasRedis then Redis else File
    else if pref == "memcached" then
      if hasMemcached then Memcached else File
    else File
  }

  /** `auto` picks the best available engine. */
  lemma AutoPicksBest(hasRedis: bool, hasMemcached: bool)
    ensures var e := SelectEngine("auto", hasRedis, hasMemcached);
      forall other: Engine :: Available(other, hasRedis, hasMemcached) ==> Rank(other) <= Rank(e)
  {
  }

  /** Naming an engine selects it exactly when its extension is loaded. */
  lemma ExplicitChoiceHonoured(e: Engine, hasRedis: bool, hasMemcached: bool)
    ensures SelectEngine(EngineName(e), hasRedis, hasMemcached) == e <==> Available(e, hasRedis, hasMemcached)
  {
  }

  /** An unset `CACHE_ENGINE` reads as `auto`. */
  lemma PreferenceDefaultsToAuto(env: Env)
    requires "CACHE_ENGINE" !in env
    ensures Preference(env) == "auto"
  {
  }

  /** Writing the preference in capitals changes nothing. */
  lemma PreferenceIgnoresCase(env: Env, s: string)
    ensures Preference(env["CACHE_ENGINE" := s]) == Preference(env["CACHE_ENGINE" := Lower(s)])
  {
    LowerIdempotent(s);
  }

  // ---------------------------------------------------------------- caches

  /** The six caches, in the order the array lists them. */
  datatype Cache = Default | CakeCore | CakeModel | CakeRoutes | Languages | Subscription

  const AllCaches: seq<Cache> := [Default, CakeCore, CakeModel, CakeRoutes, Languages, Subscription]

  /** The array key of each cache. */
  function Key(c: Cache): string {
    match c
    case Default => "default"
    case CakeCore => "_cake_core_"
    case CakeModel => "_cake_model_"
    case CakeRoutes => "_cake_routes_"
    case Languages => "languages"
    case Subscription => "subscription"
  }

  /** The part of each cache's key prefix after the engine's base prefix. */
  function PrefixSuffix(c: Cache): string {
    match c
    case Default => "default_"
    case CakeCore => "cake_core_"
    case CakeModel => "cake_model_"
    case CakeRoutes => "cake_routes_"
    case Languages => "languages_"
    case Subscription => "subscription_"
  }

  /** The two caches that expire hourly; the others keep entries for a year. */
  predicate Hourly(c: Cache) {
    c == Default || c == Subscription
  }

  /** `'+1 hours'` or `'+1 years'`. */
  function Lifetime(c: Cache): string {
    if Hourly(c) then "+1 hours" else "+1 years"
  }

  /** The settings each engine's entries carry. */
  datatype Settings =
    | RedisSettings(host: string, port: int, password: Option<string>, database: int, prefix: string,
                    duration: string, timeout: int, persistent: bool)
    | MemcachedSettings(servers: seq<string>, port: int, prefix: string, serializePhp: bool, log: bool)
    | FileSettings(path: string, lifetime: Option<string>, prefix: string)

  function Prefix(s: Settings): string {
    s.prefix
  }

  /** The env variable each engine reads its base prefix from. */
  function PrefixVariable(e: Engine): string {
    match e
    case Redis => "REDIS_PREFIX"
    case Memcached => "MEMCACHED_PREFIX"
    case File => "CACHE_PREFIX"
  }

  function BasePrefix(e: Engine, env: Env): string {
    EnvOr(env, PrefixVariable(e), "cake_")
  }

  /** One redis entry; the timeout defaults to 1 second here. */
  function RedisEntry(env: Env, cast: string -> int, c: Cache): Settings {
    RedisSettings(
      EnvOr(env, "REDIS_HOST", "localhost"), EnvInt(env, "REDIS_PORT", 6379, cast),
      EnvOpt(env, "REDIS_PASSWORD"), EnvInt(env, "REDIS_DATABASE", 0, cast),
      BasePrefix(Redis, env) + PrefixSuffix(c), Lifetime(c),
      EnvInt(env, "REDIS_TIMEOUT", 1, cast), EnvBool(env, "REDIS_PERSISTENT", false))
  }

  /** One memcached entry; only `default` and `subscription` set `'serialize' => 'php'`. */
  function MemcachedEntry(env: Env, cast: string -> int, c: Cache): Settings {
    MemcachedSettings(
      [EnvOr(env, "MEMCACHED_SERVER", "127.0.0.1")], EnvInt(env, "MEMCACHED_PORT", 11211, cast),
      BasePrefix(Memcached, env) + PrefixSuffix(c), Hourly(c), EnvBool(env, "MEMCACHED_LOG", true))
  }

  /** `DS`, the directory separator. */
  const DS: string := "/"

  /** The directory under `CACHE` each file cache uses. */
  function FilePath(cacheDir: string, c: Cache): string {
    match c
    case CakeCore => cacheDir + "persistent" + DS
    case Languages => cacheDir + "persistent" + DS
    case CakeModel => cacheDir + "models" + DS
    case _ => cacheDir
  }

  /** One file entry; `languages` and `subscription` set no duration at all. */
  function FileEntry(env: Env, cacheDir: string, c: Cache): Settings {
    FileSettings(FilePath(cacheDir, c),
                 if c == Languages || c == Subscription then None else Some(Lifetime(c)),
                 BasePrefix(File, env) + PrefixSuffix(c))
  }

  function Entry(e: Engine, env: Env, cast: string -> int, cacheDir: string, c: Cache): (s: Settings)
    ensures e == Redis <==> s.RedisSettings?
    ensures e == Memcached <==> s.MemcachedSettings?
    ensures Prefix(s) == BasePrefix(e, env) + PrefixSuffix(c)
  {
    match e
    case Redis => RedisEntry(env, cast, c)
    case Memcached => MemcachedEntry(env, cast, c)
    case File => FileEntry(env, cacheDir, c)
  }

  /** The `Cache` array: key and settings for each of the six caches, in order. */
  function CacheConfig(e: Engine, env: Env, cast: string -> int, cacheDir: string): (cfg: seq<(string, Settings)>)
    ensures |cfg| == |AllCaches|
    ensures forall i :: 0 <= i < |cfg| ==> cfg[i] == (Key(AllCaches[i]), Entry(e, env, cast, cacheDir, AllCaches[i]))
  {
    seq(|AllCaches|, i requires 0 <= i < |AllCaches| => (Key(AllCaches[i]), Entry(e, env, cast, cacheDir, AllCaches[i])))
  }

  /** The engine whose settings an entry carries. */
  function EngineOf(s: Settings): Engine {
    match s
    case RedisSettings(_, _, _, _, _, _, _, _) => Redis
    case MemcachedSettings(_, _, _, _, _) => Memcached
    case FileSettings(_, _, _) => File
  }

  /** The whole file: select the engine, then build its array. */
  function CacheAutoConfig(env: Env, hasRedis: bool, hasMemcached: bool, cast: string -> int, cacheDir: string)
    : (cfg: seq<(string, Settings)>)
    // The six caches under their own keys, in the array's order.
    ensures |cfg| == |AllCaches| && forall i :: 0 <= i < |cfg| ==> cfg[i].0 == Key(AllCaches[i])
    // Every entry belongs to the engine the preference and the loaded extensions select, never to a missing one.
    ensures forall i :: 0 <= i < |cfg| ==>
              && EngineOf(cfg[i].1) == SelectEngine(Preference(env), hasRedis, hasMemcached)
              && Available(EngineOf(cfg[i].1), hasRedis, hasMemcached)
    // Each entry is its engine's settings for its cache, prefixed by that engine's base prefix.
    ensures forall i :: 0 <= i < |cfg| ==>
              && cfg[i].1 == Entry(EngineOf(cfg[i].1), env, cast, cacheDir, AllCaches[i])
              && Prefix(cfg[i].1) == BasePrefix(EngineOf(cfg[i].1), env) + PrefixSuffix(AllCaches[i])
    // Without either extension every entry is a file cache.
    ensures !hasRedis && !hasMemcached ==> forall i :: 0 <= i < |cfg| ==> cfg[i].1.FileSettings?
  {
    CacheConfig(SelectEngine(Preference(env), hasRedis, hasMemcached), env, cast, cacheDir)
  }

  /** The array has six entries under six different keys, so no entry overwrites another. */
  lemma KeysDistinct(e: Engine, env: Env, cast: string -> int, cacheDir: string)
    ensures var cfg := CacheConfig(e, env, cast, cacheDir);
      |cfg| == 6 && forall i, j :: 0 <= i < j < |cfg| ==> cfg[i].0 != cfg[j].0
  {
    var cfg := CacheConfig(e, env, cast, cacheDir);
    forall i, j | 0 <= i < j < |cfg|
      ensures cfg[i].0 != cfg[j].0
    {
      assert AllCaches[i] != AllCaches[j];
    }
  }

  /**
   * Whatever the engine and the base prefix, no two caches share a key prefix:
   * the six caches never read each other's entries.
   */
  lemma PrefixesDistinct(e: Engine, env: Env, cast: string -> int, cacheDir: string, c: Cache, d: Cache)
    requires c != d
    ensures Prefix(Entry(e, env, cast, cacheDir, c)) != Prefix(Entry(e, env, cast, cacheDir, d))
  {
    var base := BasePrefix(e, env);
    assert (base + PrefixSuffix(c))[|base|..] == PrefixSuffix(c);
    assert (base + PrefixSuffix(d))[|base|..] == PrefixSuffix(d);
  }

  /** An unset prefix variable gives the `cake_` base, followed by the cache's own part. */
  lemma DefaultPrefix(e: Engine, env: Env, cast: string -> int, cacheDir: string, c: Cache)
    requires PrefixVariable(e) !in env
    ensures Prefix(Entry(e, env, cast, cacheDir, c)) == "cake_" + PrefixSuffix(c)
  {
  }

  /** Redis: `default` and `subscription` expire hourly, the framework caches and `languages` yearly. */
  lemma RedisLifetimes(env: Env, cast: string -> int, cacheDir: string, c: Cache)
    ensures var s := Entry(Redis, env, cast, cacheDir, c);
      s.duration == "+1 hours" <==> Key(c) == "default" || Key(c) == "subscription"
    ensures var s := Entry(Redis, env, cast, cacheDir, c);
      s.duration == "+1 years" <==> !(Key(c) == "default" || Key(c) == "subscription")
  {
  }

  /** Memcached: only `default` and `subscription` ask for PHP serialisation, and nothing sets a duration. */
  lemma MemcachedSerialization(env: Env, cast: string -> int, cacheDir: string, c: Cache)
    ensures var s := Entry(Memcached, env, cast, cacheDir, c);
      s.serializePhp <==> Key(c) == "default" || Key(c) == "subscription"
  {
  }

  /**
   * Files: `languages` and `subscription` never expire; the others expire as
   * the redis entries do.
   */
  lemma FileLifetimes(env: Env, cast: string -> int, cacheDir: string, c: Cache)
    ensures var s := Entry(File, env, cast, cacheDir, c);
      s.lifetime.None? <==> Key(c) == "languages" || Key(c) == "subscription"
    ensures var s := Entry(File, env, cast, cacheDir, c);
      s.lifetime.Some? ==> s.lifetime.value == Entry(Redis, env, cast, cacheDir, c).duration
  {
  }

  /**
   * Files: every cache lives in `CACHE` or one level below it; `_cake_core_` and
   * `languages` share `persistent/`, `_cake_model_` alone uses `models/`.
   */
  lemma FilePaths(env: Env, cast: string -> int, cacheDir: string, c: Cache, d: Cache)
    ensures StartsWith(Entry(File, env, cast, cacheDir, c).path, cacheDir)
    ensures c != d && Entry(File, env, cast, cacheDir, c).path == Entry(File, env, cast, cacheDir, d).path
            ==> (c == CakeCore || c == Languages) == (d == CakeCore || d == Languages)
  {
  }

  /** Without either extension the array is always the file one, whatever `CACHE_ENGINE` says. */
  lemma NoExtensionsMeansFiles(env: Env, cast: string -> int, cacheDir: string)
    ensures var cfg := CacheAutoConfig(env, false, false, cast, cacheDir);
      forall i :: 0 <= i < |cfg| ==> cfg[i].1.FileSettings?
  {
  }
}
