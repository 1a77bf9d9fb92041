/**
 * The environment handed to `docker compose` by cloud-builder/build.py:
 * the overrides built from the command line, the deploy and embed
 * environments, the base-image name, and which `.env` file is used.
 * Process environments are maps; the clock reading is a parameter.
 */
module BuildEnv {
  import opened Wrappers
  import opened Text

  /** Image name used when `FRANKENPHP_BASE_IMAGE` is not set. */
  const DefaultBaseImage: string := "orangescrum-cloud-base:latest"
  /** Port shown in the closing banner when `--app-port` was not given. */
  const DefaultAppPort: int := 8080

  type Env = map<string, string>

  /** The parsed command line; `type=int` options arrive already converted. */
  datatype CliArgs = CliArgs(
    check: bool, rebuildBase: bool, skipDeploy: bool, skipArchive: bool,
    skipBase: bool, keepPackage: bool, clean: bool,
    envFile: Option<string>,
    appPort: Option<int>, appBindIp: Option<string>,
    dbHost: Option<string>, dbPort: Option<int>,
    dbUsername: Option<string>, dbPassword: Option<string>, dbName: Option<string>)

  /** Python truthiness of an optional string: given and non-empty. */
  predicate Given(o: Option<string>) {
    o.Some? && o.value != ""
  }

  const OverrideKeys: set<string> :=
    {"APP_PORT", "APP_BIND_IP", "DB_HOST", "DB_PORT", "DB_USERNAME", "DB_PASSWORD", "DB_NAME"}

  function PutText(m: Env, key: string, o: Option<string>): (r: Env)
    ensures Given(o) ==> r == m[key := o.value]
    ensures !Given(o) ==> r == m
  {
    if Given(o) then m[key := o.value] else m
  }

  function PutNumber(m: Env, key: string, o: Option<int>): (r: Env)
    ensures o.Some? ==> r.Keys == m.Keys + {key} && ParseInt(r[key]) == o
    ensures o.Some? ==> forall k :: k in m && k != key ==> r[k] == m[k]
    ensures o.None? ==> r == m
  {
    if o.Some? then
      IntToDecimalRoundTrip(o.value);
      m[key := IntToDecimal(o.value)]
    else m
  }

  /** `key` is set exactly when the string option is non-empty, to its value. */
  predicate TextSlot(o: Env, key: string, opt: Option<string>) {
    && (key in o <==> Given(opt))
    && (key in o ==> o[key] == opt.value)
  }

  /** `key` is set exactly when the numeric option was given, to text that parses back to it. */
  predicate NumberSlot(o: Env, key: string, opt: Option<int>) {
    && (key in o <==> opt.Some?)
    && (key in o ==> ParseInt(o[key]) == opt)
  }

  /**
   * The overrides layered over the deploy environment: the numeric ports
   * whenever given (even 0), the string options only when non-empty.
   */
  function EnvOverrides(a: CliArgs): (o: Env)
    ensures o.Keys <= OverrideKeys
    ensures NumberSlot(o, "APP_PORT", a.appPort) && NumberSlot(o, "DB_PORT", a.dbPort)
    ensures TextSlot(o, "APP_BIND_IP", a.appBindIp) && TextSlot(o, "DB_HOST", a.dbHost)
    ensures TextSlot(o, "DB_USERNAME", a.dbUsername) && TextSlot(o, "DB_PASSWORD", a.dbPassword)
    ensures TextSlot(o, "DB_NAME", a.dbName)
  {
    var m0 := PutNumber(map[], "APP_PORT", a.appPort);
    var m1 := PutText(m0, "APP_BIND_IP", a.appBindIp);
    var m2 := PutText(m1, "DB_HOST", a.dbHost);
    var m3 := PutNumber(m2, "DB_PORT", a.dbPort);
    var m4 := PutText(m3, "DB_USERNAME", a.dbUsername);
    var m5 := PutText(m4, "DB_PASSWORD", a.dbPassword);
    PutText(m5, "DB_NAME", a.dbName)
  }

  /** `str(int(time.time()))` for a clock reading of `epoch` whole seconds. */
  function BuildDate(epoch: nat): (s: string)
    ensures ParseInt(s) == Some(epoch)
    ensures AllDigits(s)
  {
    IntToDecimalRoundTrip(epoch);
    NatToDecimal(epoch)
  }

  /** The deploy environment: the process environment, a fresh `BUILD_DATE`, then the overrides on top. */
  function DeployEnv(process: Env, epoch: nat, overrides: Env): (e: Env)
    ensures e.Keys == process.Keys + {"BUILD_DATE"} + overrides.Keys
    ensures forall k :: k in overrides ==> e[k] == overrides[k]
    ensures "BUILD_DATE" !in overrides ==> ParseInt(e["BUILD_DATE"]) == Some(epoch)
    ensures forall k :: k in process && k != "BUILD_DATE" && k !in overrides ==> e[k] == process[k]
  {
    process["BUILD_DATE" := BuildDate(epoch)] + overrides
  }

  /** The module-level base image: the environment's `FRANKENPHP_BASE_IMAGE` or the default. */
  function BaseImageName(process: Env): (name: string)
    ensures "FRANKENPHP_BASE_IMAGE" in process ==> name == process["FRANKENPHP_BASE_IMAGE"]
    ensures "FRANKENPHP_BASE_IMAGE" !in process ==> name == DefaultBaseImage
  {
    if "FRANKENPHP_BASE_IMAGE" in process then process["FRANKENPHP_BASE_IMAGE"] else DefaultBaseImage
  }

  /** The embed-build environment: a fresh `BUILD_DATE`, and the base image only where the process has none. */
  function EmbedEnv(process: Env, epoch: nat, baseImage: string): (e: Env)
    ensures e.Keys == process.Keys + {"BUILD_DATE", "FRANKENPHP_BASE_IMAGE"}
    ensures ParseInt(e["BUILD_DATE"]) == Some(epoch)
    ensures "FRANKENPHP_BASE_IMAGE" in process ==> e["FRANKENPHP_BASE_IMAGE"] == process["FRANKENPHP_BASE_IMAGE"]
    ensures "FRANKENPHP_BASE_IMAGE" !in process ==> e["FRANKENPHP_BASE_IMAGE"] == baseImage
    ensures forall k :: k in process && k != "BUILD_DATE" ==> e[k] == process[k]
  {
    var dated := process["BUILD_DATE" := BuildDate(epoch)];
    if "FRANKENPHP_BASE_IMAGE" in dated then dated else dated["FRANKENPHP_BASE_IMAGE" := baseImage]
  }

  /** A process-environment `BUILD_DATE` is always replaced, and an override replaces it again. */
  lemma OverridesWinOverBuildDate(process: Env, epoch: nat, overrides: Env)
    requires "BUILD_DATE" in overrides
    ensures DeployEnv(process, epoch, overrides)["BUILD_DATE"] == overrides["BUILD_DATE"]
  {
  }

  /** The port printed in the closing banner parses back to `--app-port`, or 8080 without it. */
  function AccessPort(overrides: Env): string {
    if "APP_PORT" in overrides then overrides["APP_PORT"] else NatToDecimal(DefaultAppPort)
  }

  lemma AccessPortFollowsFlag(a: CliArgs)
    ensures ParseInt(AccessPort(EnvOverrides(a))) == Some(a.appPort.GetOr(DefaultAppPort))
  {
    IntToDecimalRoundTrip(DefaultAppPort);
  }

  /** Which env file `docker compose up` reads. */
  datatype EnvFileChoice = Explicit(path: string) | DefaultEnvFile | ExampleEnvFile

  /** `--env-file` when non-empty, else `.env` when it exists, else `.env.example`. */
  function ResolveEnvFile(envFile: Option<string>, defaultExists: bool): (c: EnvFileChoice)
    ensures c.Explicit? <==> Given(envFile)
    ensures c.Explicit? ==> c.path == envFile.value
    ensures c == DefaultEnvFile <==> !Given(envFile) && defaultExists
  {
    if Given(envFile) then Explicit(envFile.value)
    else if defaultExists then DefaultEnvFile
    else ExampleEnvFile
  }

  /**
   * `_ensure_app_env` on file contents: an existing `.env` is kept, a
   * missing one is copied from `.env.example` when that exists.
   */
  function EnsureAppEnv<C>(dotEnv: Option<C>, example: Option<C>): (after: Option<C>)
    ensures after.Some? <==> dotEnv.Some? || example.Some?
    ensures dotEnv.Some? ==> after == dotEnv
    ensures dotEnv.None? ==> after == example
  {
    if dotEnv.Some? then dotEnv else example
  }

  lemma EnsureAppEnvIdempotent<C>(dotEnv: Option<C>, example: Option<C>)
    ensures EnsureAppEnv(EnsureAppEnv(dotEnv, example), example) == EnsureAppEnv(dotEnv, example)
  {
  }

  /**
   * Contents of the chosen env file when the deploy runs, after `_ensure_app_env`.
   * Without `--env-file` the file is chosen before `.env` is created from the
   * example, so a first deploy reads `.env.example`, which holds what the new
   * `.env` holds.
   */
  function DeployedEnvContents<C>(choice: EnvFileChoice, dotEnv: Option<C>, example: Option<C>, explicit: Option<C>)
    : (r: Option<C>)
    ensures choice == ResolveEnvFile(None, dotEnv.Some?) ==> r == EnsureAppEnv(dotEnv, example)
  {
    match choice
    case Explicit(_) => explicit
    case DefaultEnvFile => EnsureAppEnv(dotEnv, example)
    case ExampleEnvFile => example
  }
}
