# Build and configuration decisions of the OrangeScrum cloud tooling, in Dafny

This project models the decision logic of three pieces of the OrangeScrum build
and deployment tooling and proves properties of it:

- **`cloud-builder/build.py`**: the build orchestrator. It covers:
  - the repository snapshot, which uses `git archive` or a filtered manual tar;
  - the exclusion filter of that tar;
  - the config-overlay copy;
  - base-image provisioning;
  - extraction of the FrankenPHP binary from the builder container;
  - the health poll of the deployed app;
  - the environment handed to `docker compose`;
  - the stage sequence of `main`, with its skip flags, exit codes and the `finally`.
- **`generate-config.py`**: the per-domain configuration generator. It covers:
  - domain validation;
  - detection of the currently configured domain;
  - the backup of the current files;
  - the LAN address;
  - the list of files to render, with the dry-run `.new` suffix and the optional override file;
  - the render context and the executable bit;
  - the `mv` hints of a dry run;
  - the whole `generate_configurations` flow, including its questions and exit codes.
- **The PHP cache configuration**:
  - engine selection in `cache_auto.example.php` (redis over memcached over files, driven by `CACHE_ENGINE` and the loaded extensions);
  - its six-cache array for each engine;
  - `buildRedisConfig` and the redis-only array of `cache_redis.example.php`, with its TLS switch.

Every external effect becomes an input or an outcome value. This covers:

- files, as maps from path to contents;
- the Docker runtime, as answers such as present/absent, succeeds/raises, or the next observed status;
- the clock, as a number or an injected sequence of elapsed times;
- the operator's answers, as optional strings. None stands for end of input, and at the override question also for an interrupt.

`generate_configurations` takes a `Guards` parameter because two of the script's tests are wrong (see "## Findings"):

- `AsWritten` is the script as it stands. It uses the chmod test that never fires and the `replace('.new', '')` hint.
- `Intended` is the corrected flow. It makes the shell scripts executable and drops only the trailing `.new` of a hint.

Lemmas that hold either way take `g` as a parameter. Lemmas about one reading name it: `NoFileMadeExecutable` is about `AsWritten`, and `OnlyScriptsExecutable` is about `Intended`.

The operations are pure functions over immutable datatypes. Three operations with loops are methods that are proved equal to their functional definitions: the tar filter, the backup loop and the health poll.

Modules, one per file:

| module | file | models |
|---|---|---|
| `Wrappers` | wrappers.dfy | `Option` |
| `Text` | text.dfy | `strip`, ASCII `lower`, prefix/suffix tests, `str(int)` and its inverse |
| `Paths` | paths.dfy | `PurePath.name` and `.suffix` |
| `Glob` | glob.dfy | `fnmatch` for `*`-only patterns |
| `ArchiveFilter` | archive_filter.dfy | the exclusion set, `tar_filter` and the pruned recursive `tar.add` |
| `Archive` | archive.dfy | `_archive_repo` |
| `ConfigOverlay` | config_overlay.dfy | `_copy_config_overrides` |
| `BaseImage` | base_image.dfy | `_ensure_base_image` |
| `BinaryExtract` | binary_extract.dfy | `_copy_frankenphp_binary` |
| `HealthPoll` | health_poll.dfy | `_wait_for_app_healthy` |
| `BuildEnv` | build_env.dfy | env overrides, deploy/embed environments, `_resolve_env_file`, `_ensure_app_env` |
| `Pipeline` | pipeline.dfy | `main` of build.py |
| `Domain` | domain.dfy | `validate_domain`, `detect_current_domain` |
| `Backup` | backup.dfy | `backup_files` |
| `ConfigPlan` | config_plan.dfy | LAN address, config list, context, executable bit, `mv` hints |
| `GenerateConfig` | generate_config.dfy | `generate_configurations` |
| `PhpEnv` | php_env.dfy | CakePHP `env()` and `filter_var(..., FILTER_VALIDATE_BOOLEAN)` |
| `CacheAuto` | cache_auto.dfy | `cache_auto.example.php` |
| `CacheRedis` | cache_redis.dfy | `cache_redis.example.php` |

## Model

| member | source | states |
|---|---|---|
| Text.IntToDecimalRoundTrip | cloud-builder/build.py:526-534 | `str(n)` of a port read back as an integer gives `n` again, for every integer |
| Glob.StarTailMatch | cloud-builder/build.py:154-158 | a `*tail` pattern matches exactly the names ending in `tail` |
| Glob.SingleStarMatch | cloud-builder/build.py:154-158 | a `head*tail` pattern matches exactly the names with that prefix and suffix that are long enough for both |
| ArchiveFilter.SegmentExcludedIff | cloud-builder/build.py:128-158 | a path segment is excluded iff it is one of the exact names, starts with `.env.`, or ends in `.log`, `.cache` or `.pyc` |
| ArchiveFilter.Split | cloud-builder/build.py:145-148 | splitting an entry name on `/` gives separator-free pieces that join back to the name |
| ArchiveFilter.EntryNameParts | cloud-builder/build.py:145-148 | the segments of the entry name `./a/b` are exactly `a`, `b` |
| ArchiveFilter.TarFilter | cloud-builder/build.py:142-160 | the filter keeps an entry iff none of its segments is excluded |
| ArchiveFilter.TarAdd | cloud-builder/build.py:162-163 | the recursive add walks the tree, never enters a directory the filter drops, and archives only kept tree paths |
| ArchiveFilter.TarAddTree | cloud-builder/build.py:142-163 | the whole `tar.add` call adds the root entry `.`, which has no segment to exclude, plus exactly the tree's kept paths |
| ArchiveFilter.TarAddKeepsExactlyKept | cloud-builder/build.py:142-163 | the pruned walk archives exactly the tree's paths whose every segment is kept, the same set as filtering all paths one by one |
| ArchiveFilter.VendorNeverEntered | cloud-builder/build.py:128-163 | for a tree with `vendor/foo.php` and `src/bar.php`, the archive holds `src` and `src/bar.php` only |
| ArchiveFilter.ExcludedDirDropsSubtree | cloud-builder/build.py:148-158 | everything below an excluded directory is excluded too |
| ArchiveFilter.KeptEntryHasKeptParents | cloud-builder/build.py:148-158 | every ancestor of a kept entry is kept |
| ArchiveFilter.VendorDroppedSourceKept | cloud-builder/build.py:128-160 | from `vendor/foo.php` and `src/bar.php`, only the `src` side is archived |
| Archive.ArchiveRepo | cloud-builder/build.py:93-166 | a missing tree raises before anything runs. git is tried iff `.git` exists. The manual tar runs iff there is no `.git` or git exits non-zero. Any other git error propagates. git archives the tracked files. The manual tar archives the root entry `.` and exactly the kept paths of the directory tree |
| ConfigOverlay.SelectedIff | cloud-builder/build.py:81 | the glob `*.example.php` selects exactly the names ending in `.example.php` |
| ConfigOverlay.CopyConfigOverrides | cloud-builder/build.py:70-90 | a missing directory only warns and changes nothing. Otherwise each selected file lands under its own name and every other file is kept |
| ConfigOverlay.OverlayIdempotent | cloud-builder/build.py:87-89 | a second overlay changes nothing |
| BaseImage.EnsureBaseImage | cloud-builder/build.py:176-206 | removal is tried iff rebuilding, and first. A not-found removal is no error. A present image skips the recipe. The recipe runs iff the lookup succeeds and finds nothing |
| BinaryExtract.Install | cloud-builder/build.py:287-295 | the entry is renamed iff it was unpacked. Success leaves the binary with mode 0755. Every other file is untouched |
| BinaryExtract.CopyBinary | cloud-builder/build.py:262-297 | an empty container id raises before any fetch and changes nothing. The archive is fetched iff the id is non-empty and known. A successful copy leaves an executable binary holding the delivered bytes |
| BinaryExtract.StaleBinaryKept | cloud-builder/build.py:291-295 | a stream without the entry still succeeds when an old binary is present, and keeps the old bytes |
| HealthPoll.Status | cloud-builder/build.py:333-335 | the health status wins, and an absent or empty one falls back to the state status |
| HealthPoll.Tail | cloud-builder/build.py:341 | the log tail is the last 50 lines, or all of them |
| HealthPoll.Step | cloud-builder/build.py:317-346 | one pass decides nothing iff it is within budget and has no container, a failed lookup or a non-final status. Otherwise it decides healthy, terminal with the log tail, or timed out |
| HealthPoll.PollFrom | cloud-builder/build.py:317-349 | the loop ends at the first deciding observation, and every earlier one was pending |
| HealthPoll.WaitForAppHealthy | cloud-builder/build.py:309-349 | the loop consumes observations until one decides, and agrees with the functional poll |
| HealthPoll.TimeoutEndsPoll | cloud-builder/build.py:317 | once an observation reaches the budget, the loop has ended with a verdict |
| HealthPoll.DefaultBudgetBound | cloud-builder/build.py:311-346 | with the 180-second budget and the 2-second sleep, the loop condition is evaluated at most 91 times, and the container is looked at no more than 90 times |
| HealthPoll.ExitedCarriesLogTail | cloud-builder/build.py:340-344 | an exited container fails the wait with the last 50 log lines |
| BuildEnv.EnvOverrides | cloud-builder/build.py:525-540 | the ports are set whenever given, even 0, as text that parses back. The string options are set iff non-empty. No other key is set |
| BuildEnv.DeployEnv | cloud-builder/build.py:407-409 | the process environment plus a fresh `BUILD_DATE`, with the overrides winning |
| BuildEnv.EmbedEnv | cloud-builder/build.py:211-213 | `BUILD_DATE` is always replaced, and the base image is set only where the process has none |
| BuildEnv.AccessPortFollowsFlag | cloud-builder/build.py:609-612 | the banner port is `--app-port`, or 8080 without it |
| BuildEnv.ResolveEnvFile | cloud-builder/build.py:300-306 | a non-empty `--env-file` wins, then an existing `.env`, then `.env.example` |
| BuildEnv.EnsureAppEnv | cloud-builder/build.py:389-400 | an existing `.env` is kept, and a missing one is copied from the example when the example exists |
| BuildEnv.DeployedEnvContents | cloud-builder/build.py:522-599 | without `--env-file`, the env file the deploy reads, chosen before `.env` is created, holds exactly what `.env` holds once `_ensure_app_env` ran, on a first deploy as on later ones |
| Pipeline.Plan | cloud-builder/build.py:542-602 | the steps run in fixed order, and each runs iff its flags allow it |
| Pipeline.SkipDeployDropsOnlyDeploy | cloud-builder/build.py:596-602 | `--skip-deploy` removes the three deploy steps and nothing else |
| Pipeline.SkipBaseDropsOnlyBase | cloud-builder/build.py:570-572 | `--skip-base` removes only the base-image step |
| Pipeline.SkipArchiveDropsArchiveSteps | cloud-builder/build.py:550-593 | `--skip-archive` removes the five archive steps, and the final package removal when no package existed |
| Pipeline.Run | cloud-builder/build.py:542-626 | the block runs up to the first raising step, which is the last one started |
| Pipeline.BuildMain | cloud-builder/build.py:497-630 | `--check` only reports the pre-flight check. A failed pre-flight stops with status 1 before a client exists. Otherwise the status is 0 iff no step raised, and an opened client is always closed |
| Pipeline.CopyFailureLeavesBuilderRunning | cloud-builder/build.py:584-628 | when the binary copy raises, the builder stop never runs, the status is 1 and the client is still closed |
| Pipeline.HealthTimeoutStillSucceeds | cloud-builder/build.py:602-630 | a health timeout still ends the build with status 0 after the whole plan |
| Pipeline.TerminalContainerFailsBuild | cloud-builder/build.py:596-626 | an exited or dead app container fails the build |
| Domain.ValidateDomain | generate-config.py:57-61 | true iff `^[a-z0-9.-]+\.[a-z]{2,}$` matches under `re.match`, where `$` also matches before one final newline |
| Domain.ShapeNeeds | generate-config.py:60 | an accepted domain has at least 4 characters, starts with a domain character, ends with a letter and contains a dot |
| Domain.TrailingNewlineAccepted | generate-config.py:60-61 | `a.com\n` passes validation |
| Domain.TwoNewlinesRejected | generate-config.py:60-61 | `a.com\n\n` does not pass |
| Domain.DetectCurrentDomain | generate-config.py:88-106 | None without the compose file. A `# Domain:` comment anywhere wins over a `Host` label. A detected domain passes validation |
| Backup.Present | generate-config.py:78-83 | the backed-up list holds exactly the listed files that exist, and only those |
| Backup.PresentInOrder | generate-config.py:78-83 | the backed-up list picks its files from the list at strictly increasing positions, so it keeps list order |
| Backup.PresentAppend | generate-config.py:78-83 | the files found in a concatenated list are those found in the first part, then those in the second |
| Backup.BackupFiles | generate-config.py:64-85 | the call raises iff its `mkdir` fails or a copy fails before every existing listed file is copied. A call that does not raise backs up exactly the existing listed files, in list order. One that raises has copied the files before the failing copy, and none when `mkdir` failed. The backup directory holds the copied files under their base names |
| Backup.BackupEach | generate-config.py:75-83 | the same for any list of names without `/`: `mkdir` first, then the copies in list order, stopping at the first raise |
| Backup.CopyEach | generate-config.py:78-83 | the copy loop alone, once the directory exists: it stops at the failing copy with the files copied before it |
| Backup.CopyFaultFires | generate-config.py:79-82 | when the next existing file's copy is the one that fails, the call raises, and the files copied so far are exactly those before it |
| Backup.BackupKeepsCopied | generate-config.py:78-83 | every copied file is in the backup under its name, unchanged. The directory gains exactly the copied names, and every other name keeps its old contents |
| Backup.BackupKeepsEveryFile | generate-config.py:79-83 | every existing listed file is in the backup under its name, unchanged, and nothing else in the directory changes |
| ConfigPlan.LanIp | generate-config.py:153-158 | the first whitespace token of `hostname -I`, or `192.168.1.100` on failure or empty output |
| ConfigPlan.FirstTokenOfLine | generate-config.py:155-156 | the first token of `w` followed by blanks and more is `w` |
| ConfigPlan.WithNewSuffix | generate-config.py:280-282 | a dry run appends `.new` to every output and changes nothing else |
| ConfigPlan.OverrideOnlyWhenAsked | generate-config.py:272-277 | the override file is planned iff requested, and always last |
| ConfigPlan.DryRunOnlyRenames | generate-config.py:279-282 | the dry-run plan is the applied plan with `.new` appended to each output |
| ConfigPlan.LaunchersFollowProfile | generate-config.py:245-268 | `local` launchers target 127.0.0.1, `lan` launchers the LAN address, and launcher names carry the domain |
| ConfigPlan.RenderContext | generate-config.py:293-295 | the base context updated with the entry's extra context, and nothing else changed |
| ConfigPlan.LauncherContexts | generate-config.py:245-295 | every launcher renders with its own target and profile and the run's domain |
| ConfigPlan.ChmodNeverFires | generate-config.py:305-306 | the chmod guard as written holds for no output path |
| ConfigPlan.ShellScriptsExecutable | generate-config.py:304-306 | with the intended guard, exactly the outputs of `.sh.j2` templates become executable, in real and dry runs |
| ConfigPlan.HintMangledWhenDomainHasNew | generate-config.py:245-331 | for every domain containing `.new`, the hint the script prints for the `linux`/`local` launcher names no file a real run writes, whatever the LAN address and override choice |
| ConfigPlan.MvDest | generate-config.py:330 | the intended destination drops exactly one trailing `.new` |
| ConfigPlan.DryHintsRestoreOutputs | generate-config.py:279-331 | each corrected hint moves a dry-run file onto exactly the path a real run writes |
| ConfigPlan.ReplaceNewTrailing | generate-config.py:330 | on a name without `.new`, the script's `replace('.new', '')` of the name plus `.new` gives the name back |
| ConfigPlan.AsWrittenHintsRestoreOutputs | generate-config.py:245-331 | for a domain without `.new`, each hint as the script prints it moves a dry-run file onto exactly the path a real run writes |
| GenerateConfig.FirstFailure | generate-config.py:286-313 | rendering stops at the first template that fails, and all before it rendered |
| GenerateConfig.RenderPhase | generate-config.py:191-360 | a missing templates directory exits 1 having written nothing. Hints appear only after a successful dry run. A real run exits 0 only when the next-steps template also loads |
| GenerateConfig.RenderPhaseWrites | generate-config.py:284-360 | the files written are the planned ones, in order, up to the first failing template. The phase exits 0 iff none fails and, in a real run, the next-steps template loads. A successful dry run prints one hint per planned file |
| GenerateConfig.GenerateConfigurations | generate-config.py:127-360 | an invalid domain exits 1 untouched. A domain change is confirmed iff detected. The override question is never asked in a dry run. The backup is started iff validation and confirmation pass. The old domain is archived iff the backup completed and the domain changed. The backup directory holds what the backup loop copied before any raise, followed, after archiving, by the old domain's files copied before any archiving raise. A raising backup or archiving exits 1 with nothing rendered and no hint. Files are written only when both completed and the templates directory exists. A real run that exits 0 has loaded the next-steps template |
| GenerateConfig.ChangeNeedsConsent | generate-config.py:137-149 | at the change prompt, end of input exits 1 and a refusal exits 0, and neither touches a file |
| GenerateConfig.BackupHoldsEveryListedFile | generate-config.py:109-187 | once the backup starts, its directory holds exactly the names of the copied listed files and of the archived old-domain files. A copied listed file has its contents unless an archived file of the same name replaced it. An archived file has its contents unless a later one of the same name replaced it. When no copy raises, every existing listed file is covered. Without a domain change, only the listed files are in it |
| GenerateConfig.BackupThenArchive | generate-config.py:109-124 | the same, for the directory of `backup_files` with any sequence of archived files copied in after it |
| GenerateConfig.BackupDirHolds | generate-config.py:64-85 | the directory `backup_files` leaves holds exactly the copied files under their names with their contents, and every existing listed file once the backup completes |
| GenerateConfig.ArchivedCount | generate-config.py:116-122 | how many of the old domain's files reach the backup: all of them unless a copy or unlink raises, and never more than were found |
| GenerateConfig.Archived | generate-config.py:116-122 | the archived files are a prefix of the files the globs found, and all of them when nothing raises |
| GenerateConfig.AddFilesKeys | generate-config.py:118-121 | copying files into a directory adds exactly their names |
| GenerateConfig.AddFilesLatest | generate-config.py:118-121 | a copied file that no later one of the same name overwrites is in the directory with its contents |
| GenerateConfig.AddFilesOthers | generate-config.py:118-121 | a name none of the copied files has keeps its old contents |
| GenerateConfig.WritesPlannedPrefix | generate-config.py:174-360 | the files written are the planned ones, in order, up to the first failing template. Once the backup and any archiving completed, the run exits 0 iff none fails and, in a real run, the next-steps template loads |
| GenerateConfig.WrittenArePlanned | generate-config.py:286-310 | every file written is a planned one, rendered with the base context and its own extras |
| GenerateConfig.NoFileMadeExecutable | generate-config.py:304-306 | as the script stands, no file it writes is made executable, not even the shell scripts |
| GenerateConfig.OnlyScriptsExecutable | generate-config.py:304-306 | with the corrected chmod test, exactly the files rendered from shell templates are made executable |
| GenerateConfig.ContextsCarryDomain | generate-config.py:204-297 | every file renders with the run's domain and LAN address |
| GenerateConfig.DryRunIsReviewable | generate-config.py:165-331 | a dry run asks nothing about the override and renders only `.new` files. It still takes the same backup as a real run, and archives the old domain's files exactly when a real run does: after a complete backup of a changed domain |
| GenerateConfig.DryHintsNameRealOutputs | generate-config.py:279-331 | a successful dry run prints one hint per file a real run writes. Each hint targets that file: always with the corrected destination, and with the script's `replace` whenever the domain holds no `.new` |
| GenerateConfig.OverrideNeedsYes | generate-config.py:165-277 | the override file is written only in a real run whose operator said y/yes |
| GenerateConfig.NewsDomainHintMangled | generate-config.py:127-331 | `a.news` passes validation, yet its dry-run hint names the wrong file |
| PhpEnv.EnvOr | cloud-builder/orangescrum-cloud/config/cache_auto.example.php:25 | `env(key, default)` returns the set value, or the default when the variable is unset |
| PhpEnv.EnvInt | cloud-builder/orangescrum-cloud/config/cache_auto.example.php:69 | `(int)env(key, default)` casts a set value and keeps an integer default |
| PhpEnv.FilterBoolIgnoresPadding | cloud-builder/orangescrum-cloud/config/cache_auto.example.php:75 | the boolean filter ignores surrounding blanks and accepts exactly 1/true/on/yes |
| PhpEnv.FilterBoolIgnoresCase | cloud-builder/orangescrum-cloud/config/cache_auto.example.php:75 | the boolean filter ignores letter case |
| PhpEnv.EnvBool | cloud-builder/orangescrum-cloud/config/cache_auto.example.php:75 | a boolean default is returned as it is when the variable is unset |
| CacheAuto.SelectEngine | cloud-builder/orangescrum-cloud/config/cache_auto.example.php:28-57 | the result's extension is always loaded. An explicit engine yields that engine or files. Anything unrecognised yields files |
| CacheAuto.AutoPicksBest | cloud-builder/orangescrum-cloud/config/cache_auto.example.php:30-40 | `auto` picks the highest-ranked available engine: redis, then memcached, then files |
| CacheAuto.ExplicitChoiceHonoured | cloud-builder/orangescrum-cloud/config/cache_auto.example.php:41-57 | naming an engine selects it iff its extension is loaded |
| CacheAuto.PreferenceDefaultsToAuto | cloud-builder/orangescrum-cloud/config/cache_auto.example.php:25 | an unset `CACHE_ENGINE` means `auto` |
| CacheAuto.PreferenceIgnoresCase | cloud-builder/orangescrum-cloud/config/cache_auto.example.php:25 | capitals in `CACHE_ENGINE` change nothing |
| CacheAuto.CacheAutoConfig | cloud-builder/orangescrum-cloud/config/cache_auto.example.php:20-233 | the array has the six caches under their keys, in order. Every entry belongs to the engine selected from the preference and the loaded extensions, and that engine's extension is loaded. Each entry has that engine's shape for its cache, with the engine's base prefix followed by the cache's part. Without either extension every entry is a file cache (`NoExtensionsMeansFiles` builds on this) |
| CacheAuto.Entry | cloud-builder/orangescrum-cloud/config/cache_auto.example.php:62-233 | each entry has its engine's shape, and its prefix is the engine's base prefix followed by the cache's own part |
| CacheAuto.CacheConfig | cloud-builder/orangescrum-cloud/config/cache_auto.example.php:62-233 | every engine yields the same six keys in the same order |
| CacheAuto.KeysDistinct | cloud-builder/orangescrum-cloud/config/cache_auto.example.php:62-233 | whatever the engine and environment, the array has six entries and no key appears twice, so no cache configuration overwrites another |
| CacheAuto.PrefixesDistinct | cloud-builder/orangescrum-cloud/config/cache_auto.example.php:72-222 | no two caches share a key prefix, whatever the base prefix |
| CacheAuto.DefaultPrefix | cloud-builder/orangescrum-cloud/config/cache_auto.example.php:72-195 | an unset prefix variable gives `cake_` followed by the cache's part |
| CacheAuto.RedisLifetimes | cloud-builder/orangescrum-cloud/config/cache_auto.example.php:73-128 | under redis, `default` and `subscription` last one hour and the other four one year |
| CacheAuto.MemcachedSerialization | cloud-builder/orangescrum-cloud/config/cache_auto.example.php:143-180 | under memcached, only `default` and `subscription` set PHP serialisation |
| CacheAuto.FileLifetimes | cloud-builder/orangescrum-cloud/config/cache_auto.example.php:191-229 | under files, `languages` and `subscription` have no duration, and the others match the redis lifetimes |
| CacheAuto.FilePaths | cloud-builder/orangescrum-cloud/config/cache_auto.example.php:191-229 | every file cache lives under `CACHE`, and only `_cake_core_` and `languages` share `persistent/` |
| CacheAuto.NoExtensionsMeansFiles | cloud-builder/orangescrum-cloud/config/cache_auto.example.php:20-233 | without either extension, the array is the file one |
| CacheRedis.TlsOptions | cloud-builder/orangescrum-ee/config/cache_redis.example.php:42-47 | `verify_peer_name` is false, `allow_self_signed` and `SNI_enabled` are true, and `verify_peer` is true only when set to a true word |
| CacheRedis.BuildRedisConfig | cloud-builder/orangescrum-ee/config/cache_redis.example.php:20-51 | host, port and database come from the environment, or default to `localhost`, 6379 and 0. A password is present iff `REDIS_PASSWORD` is set. The duration is the caller's, or the default when none is given. `tls` and `ssl` are present iff `REDIS_TLS_ENABLED` is a true word. The prefix is the base followed by the cache type and `_`. The defaults are timeout 10, read timeout 30, no compression and not persistent |
| CacheRedis.RedisCaches | cloud-builder/orangescrum-ee/config/cache_redis.example.php:53-62 | six caches with their keys, each built with its own type and lifetime |
| CacheRedis.AgreesWithAutoRedis | cloud-builder/orangescrum-ee/config/cache_redis.example.php:22-33 | server, credentials, prefix, lifetime and persistence equal the redis branch of the engine-selecting file |
| CacheRedis.TimeoutDefaultsDiffer | cloud-builder/orangescrum-ee/config/cache_redis.example.php:30 | the one diverging default: the timeout is 10 seconds here and 1 in the engine-selecting file |

## Left out

- Subprocesses, the Docker SDK, `docker compose`, tar reading and writing, and the build script's `shutil` copies and `chmod`: they appear only as outcomes (succeeds/raises, present/absent, the returned id or status). In the configuration generator, the backup's `mkdir` and `copy2` and the archiving of the old domain's files are not guarded by the script. Their raise is an input of the world: `BackupFault` names the failing `mkdir` or copy, and `ArchiveFault` the failing `copy2` or `unlink` of the archiving.
- Console output, colours and the size-in-MB report: they print and decide nothing.
- Wall-clock time and `sleep`: elapsed times are an injected sequence, and `BUILD_DATE` and the backup time stamp are parameters.
- Jinja2 rendering and the template contents: a template either renders and its file is written, or the run fails at it. The extra `label` field is carried as `shownAs`.
- `os.execv` re-executing under the virtual environment (generate-config.py:17-21), and `argparse` parsing in both scripts. Parsed flags are inputs.
- `print_next_steps` (generate-config.py:339-362): only whether its template loads and renders is modelled, because an uncaught failure there ends a real run with status 1. The access-point list and the printed text are not modelled.
- `backup_old_domain_files` (generate-config.py:109-124): the two globs are not modelled. What they find is an input, `oldDomainFiles`: names and contents in glob order, taken to exist. The `unlink` of each archived file is not modelled either, because the outcome does not carry the working tree after the run.
- An unreadable `docker-compose.yml`: `Domain.DetectCurrentDomain` models its None result, but `GenerateConfig.CurrentDomain` always passes the contents of an existing file.
- `expanduser`/`resolve` of `--env-file` and of the module-level paths: paths stay as given.
- `Pipeline.BuildMain`: `docker.from_env()` failing before the `try` block is not modelled, since the pre-flight check pings the same daemon first.
- Full `fnmatch` and regex semantics: only `*` patterns and the two domain regexes the scripts use are modelled.
- `HealthPoll.PollFrom`: a result `TraceEnded` exists only because the observation sequence is finite. `HealthPoll.TimeoutEndsPoll` shows that it cannot occur once an observation reaches the budget.
- PHP's `(int)` cast: it is a parameter `cast`, because PHP's numeric-prefix parsing is not modelled.
- PHP `strtolower` and Python `lower()`: both are ASCII-only here. Non-ASCII letters are not case-folded.
- PHP class names (`RedisEngine::class` and the others) and `\Redis::SERIALIZER_PHP`: they are implied by the engine, and the serializer is always PHP's.
- `error_log` calls in the engine selection: they only log.
- The remaining declarative PHP configuration files: they contain no decisions.

## Findings

| source | as written | input that shows it | evidently intended | confidence | as-written member | corrected member |
|---|---|---|---|---|---|---|
| generate-config.py:305-306 | `output_path.suffix in ['.sh', '']` and `output.endswith('.sh.new')`: no path has both a `.sh` or empty suffix and the `.sh.new` ending, so no file is ever made executable | `php-trust-certs.sh` (suffix `.sh`, no `.sh.new` ending) or `php-trust-certs.sh.new` (suffix `.new`) | the two tests joined with `or`, so the generated shell scripts become executable in real and dry runs | not executed | ConfigPlan.ChmodNeverFires | ConfigPlan.ShellScriptsExecutable |
| generate-config.py:328-331 | the dry-run hint target is `src.replace('.new', '')`, which also deletes `.new` inside the domain | any domain containing `.new`, such as `a.news`, for which the hint moves `launchers/linux-a.news-local.desktop.new` to `launchers/linux-as-local.desktop` | drop only the trailing `.new`, so the hint restores the path a real run writes | not executed | ConfigPlan.HintMangledWhenDomainHasNew | ConfigPlan.DryHintsRestoreOutputs |
