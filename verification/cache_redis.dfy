/**
 * `cache_redis.example.php` (orangescrum-ee): the redis-only cache array, every
 * entry built by `buildRedisConfig`, with native TLS switched on by
 * `REDIS_TLS_ENABLED`.
 */
module CacheRedis {
  import opened Wrappers
  import opened PhpEnv
  import CacheAuto

  /** The `ssl` options passed to the TLS stream. */
  datatype Ssl = Ssl(verifyPeer: bool, verifyPeerName: bool, allowSelfSigned: bool, sniEnabled: bool)

  /**
   * One entry. `tls` and `ssl` stand for keys that are present only in TLS mode
   * (`tls` is then always true); the serializer is always PHP's.
   */
  datatype RedisConfig = RedisConfig(
    host: string, port: int, password: Option<string>, database: int, prefix: string,
    duration: string, timeout: int, readTimeout: int, persistent: bool, compress: bool,
    tls: bool, ssl: Option<Ssl>)

  /** `$duration`'s default, used when a caller leaves the argument out. */
  const DefaultDuration: string := "+1 hours"

  /** The TLS settings: peer verification follows `REDIS_TLS_VERIFY_PEER`, the rest is fixed. */
  function TlsOptions(env: Env): (o: Ssl)
    ensures !o.verifyPeerName && o.allowSelfSigned && o.sniEnabled
    ensures o.verifyPeer <==> "REDIS_TLS_VERIFY_PEER" in env && FilterBool(env["REDIS_TLS_VERIFY_PEER"])
  {
    FalseIsFalse();
    Ssl(EnvFlag(env, "REDIS_TLS_VERIFY_PEER", "false"), false, true, true)
  }

  function TlsEnabled(env: Env): bool {
    EnvFlag(env, "REDIS_TLS_ENABLED", "false")
  }

  /** `buildRedisConfig($cacheType, $duration)`; `duration` is None when the argument is left out. */
  function BuildRedisConfig(env: Env, cast: string -> int, cacheType: string, duration: Option<string>): (r: RedisConfig)
    // The server: each setting from its variable when set, else the documented default.
    ensures "REDIS_HOST" in env ==> r.host == env["REDIS_HOST"]
    ensures "REDIS_HOST" !in env ==> r.host == "localhost"
    ensures "REDIS_PORT" in env ==> r.port == cast(env["REDIS_PORT"])
    ensures "REDIS_PORT" !in env ==> r.port == 6379
    ensures "REDIS_DATABASE" in env ==> r.database == cast(env["REDIS_DATABASE"])
    ensures "REDIS_DATABASE" !in env ==> r.database == 0
    // The AUTH token is sent exactly when the variable is set (an empty value included).
    ensures r.password.Some? <==> "REDIS_PASSWORD" in env
    ensures r.password.Some? ==> r.password.value == env["REDIS_PASSWORD"]
    // TLS mode is entered only when the variable is set to a true word; both keys appear together.
    ensures r.tls <==> "REDIS_TLS_ENABLED" in env && FilterBool(env["REDIS_TLS_ENABLED"])
    ensures r.ssl.Some? <==> r.tls
    ensures r.ssl.Some? ==> r.ssl.value == TlsOptions(env)
    // Each cache type gets its own namespace under the common base prefix.
    ensures r.prefix == CacheAuto.BasePrefix(CacheAuto.Redis, env) + cacheType + "_"
    ensures duration.Some? ==> r.duration == duration.value
    ensures duration.None? ==> r.duration == DefaultDuration
    ensures r.readTimeout == 30 && !r.compress
    ensures "REDIS_TIMEOUT" in env ==> r.timeout == cast(env["REDIS_TIMEOUT"])
    ensures "REDIS_TIMEOUT" !in env ==> r.timeout == 10
    ensures r.persistent <==> "REDIS_PERSISTENT" in env && FilterBool(env["REDIS_PERSISTENT"])
  {
    FalseIsFalse();
    var tls := TlsEnabled(env);
    RedisConfig(
      EnvOr(env, "REDIS_HOST", "localhost"), EnvInt(env, "REDIS_PORT", 6379, cast),
      EnvOpt(env, "REDIS_PASSWORD"), EnvInt(env, "REDIS_DATABASE", 0, cast),
      EnvOr(env, "REDIS_PREFIX", "cake_") + cacheType + "_", duration.GetOr(DefaultDuration),
      EnvInt(env, "REDIS_TIMEOUT", 10, cast), 30, EnvFlag(env, "REDIS_PERSISTENT", "false"), false,
      tls, if tls then Some(TlsOptions(env)) else None)
  }

  /** The `$cacheType` each cache passes. */
  function CacheType(c: CacheAuto.Cache): string {
    match c
    case Default => "default"
    case CakeCore => "cake_core"
    case CakeModel => "cake_model"
    case CakeRoutes => "cake_routes"
    case Languages => "languages"
    case Subscription => "subscription"
  }

  /** The returned `Cache` array. */
  function RedisCaches(env: Env, cast: string -> int): (cfg: seq<(string, RedisConfig)>)
    ensures |cfg| == |CacheAuto.AllCaches|
    ensures forall i :: 0 <= i < |cfg| ==>
      var c := CacheAuto.AllCaches[i];
      cfg[i] == (CacheAuto.Key(c), BuildRedisConfig(env, cast, CacheType(c), Some(CacheAuto.Lifetime(c))))
  {
    seq(|CacheAuto.AllCaches|, i requires 0 <= i < |CacheAuto.AllCaches| =>
      var c := CacheAuto.AllCaches[i];
      (CacheAuto.Key(c), BuildRedisConfig(env, cast, CacheType(c), Some(CacheAuto.Lifetime(c)))))
  }

  /** `$cacheType . '_'` is the prefix part the engine-selecting file spells out. */
  lemma TypeNamesPrefix(c: CacheAuto.Cache)
    ensures CacheType(c) + "_" == CacheAuto.PrefixSuffix(c)
  {
    match c
    case Default =>
    case CakeCore =>
    case CakeModel =>
    case CakeRoutes =>
    case Languages =>
    case Subscription =>
  }

  /**
   * This array and the redis branch of the engine-selecting file describe the
   * same caches: same keys, server, credentials, prefixes, lifetimes and
   * persistence, for every environment.
   */
  lemma AgreesWithAutoRedis(env: Env, cast: string -> int, cacheDir: string, c: CacheAuto.Cache)
    ensures var r := BuildRedisConfig(env, cast, CacheType(c), Some(CacheAuto.Lifetime(c)));
      var a := CacheAuto.Entry(CacheAuto.Redis, env, cast, cacheDir, c);
      && r.host == a.host && r.port == a.port && r.password == a.password && r.database == a.database
      && r.prefix == a.prefix && r.duration == a.duration && r.persistent == a.persistent
  {
    FalseIsFalse();
    TypeNamesPrefix(c);
  }

  /** The one default they do not share: the connection timeout is 10 seconds here and 1 there. */
  lemma TimeoutDefaultsDiffer(env: Env, cast: string -> int, cacheDir: string, c: CacheAuto.Cache)
    requires "REDIS_TIMEOUT" !in env
    ensures BuildRedisConfig(env, cast, CacheType(c), Some(CacheAuto.Lifetime(c))).timeout == 10
    ensures CacheAuto.Entry(CacheAuto.Redis, env, cast, cacheDir, c).timeout == 1
  {
  }
}
