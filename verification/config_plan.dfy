/**
 * The planning half of `generate_configurations` (generate-config.py): which
 * existing files are backed up, the LAN address, the list of
 * template/output/context entries with the optional override file and the
 * dry-run `.new` suffix, the per-entry render context, and which outputs are
 * made executable. An entry's `label` key is the field `shownAs` here.
 */
module ConfigPlan {
  import opened Wrappers
  import opened Text
  import opened Paths

  /** Address used when `hostname -I` fails or prints nothing. */
  const DefaultLanIp: string := "192.168.1.100"

  predicate AllSpace(s: string) {
    forall i :: 0 <= i < |s| ==> IsSpace(s[i])
  }

  /** `w` is the first whitespace-separated word of `s`, starting at `i`. */
  predicate TokenAt(s: string, i: int, w: string) {
    && 0 <= i && i + |w| <= |s| && w != []
    && AllSpace(s[..i]) && s[i..i + |w|] == w && NoSpace(w)
    && (i + |w| == |s| || IsSpace(s[i + |w|]))
  }

  /** Length of the run of non-whitespace characters that starts `s`. */
  function WordLength(s: string): (n: nat)
    ensures n <= |s| && NoSpace(s[..n])
    ensures n < |s| ==> IsSpace(s[n])
  {
    if s == [] || IsSpace(s[0]) then 0
    else
      var n := WordLength(s[1..]);
      assert s[..n + 1] == [s[0]] + s[1..][..n];
      n + 1
  }

  /** `s.split()[0]` when `s` has a word. */
  function FirstToken(s: string): (r: Option<string>)
    ensures r.None? <==> AllSpace(s)
    ensures r.Some? ==> TokenAt(s, |s| - |TrimLeft(s)|, r.value)
  {
    var t := TrimLeft(s);
    var n := WordLength(t);
    var i := |s| - |t|;
    assert s[i..] == t;
    if n == 0 then
      assert AllSpace(s) by {
        assert t == [];
      }
      None
    else
      assert s[i..i + n] == t[..n];
      Some(t[..n])
  }

  /** `hostname -I`'s first address, or the fallback; `output` is None when the command failed. */
  function LanIp(output: Option<string>): (ip: string)
    ensures ip != [] && NoSpace(ip)
    ensures output.None? || AllSpace(output.value) ==> ip == DefaultLanIp
    ensures output.Some? && !AllSpace(output.value) ==> exists i :: TokenAt(output.value, i, ip)
  {
    match output
    case None => DefaultLanIp
    case Some(out) =>
      match FirstToken(out)
      case None => DefaultLanIp
      case Some(w) => w
  }

  /** A line that starts with a word yields that word. */
  lemma FirstTokenOfLine(w: string, rest: string)
    requires w != [] && NoSpace(w)
    requires rest == [] || IsSpace(rest[0])
    ensures FirstToken(w + rest) == Some(w)
  {
    var s := w + rest;
    assert s[0] == w[0];
    assert TrimLeft(s) == s;
    assert s[..|w|] == w;
  }

  lemma FirstAddressChosen()
    ensures LanIp(Some("10.0.0.5 172.17.0.1 \n")) == "10.0.0.5"
  {
    assert "10.0.0.5 172.17.0.1 \n" == "10.0.0.5" + " 172.17.0.1 \n";
    FirstTokenOfLine("10.0.0.5", " 172.17.0.1 \n");
  }

  // ------------------------------------------------------------ config list

  /** Loopback address given to the `local` launchers. */
  const LocalIp: string := "127.0.0.1"

  datatype Extra = Extra(targetIp: string, profile: string)

  /** One output to render: template, output path, display label, optional extra context. */
  datatype ConfigEntry = ConfigEntry(template: string, output: string, shownAs: string, extra: Option<Extra>)

  /** An entry without extra context; its output is written as stem and extension. */
  function Plain(template: string, stem: string, ext: string): ConfigEntry {
    var out := stem + ext;
    ConfigEntry(template, out, out, None)
  }

  function LauncherStem(platform: string, domain: string, profile: string): string {
    "launchers/" + platform + "-" + domain + "-" + profile
  }

  /** A browser launcher whose file name carries the domain and the profile. */
  function Launcher(template: string, platform: string, domain: string, ext: string, targetIp: string, profile: string): ConfigEntry {
    var out := LauncherStem(platform, domain, profile) + ext;
    ConfigEntry(template, out, out, Some(Extra(targetIp, profile)))
  }

  /** The ten outputs generated on every run. */
  function BaseEntries(domain: string, lanIp: string): (es: seq<ConfigEntry>)
    ensures |es| == 10
  {
    [ Plain("docker-compose.yml.j2", "docker-compose", ".yml"),
      Plain("traefik-dynamic.yml.j2", "traefik/dynamic", ".yml"),
      Plain("durango-apache.conf.j2", "config/durango-apache", ".conf"),
      Plain("orangescrum-apache.conf.j2", "config/orangescrum-apache", ".conf"),
      Plain("php-trust-certs.sh.j2", "php-trust-certs", ".sh"),
      Plain("generate-certs.sh.j2", "generate-certs", ".sh"),
      Launcher("oschrome.desktop.j2", "linux", domain, ".desktop", LocalIp, "local"),
      Launcher("oschrome.desktop.j2", "linux", domain, ".desktop", lanIp, "lan"),
      Launcher("oschrome.bat.j2", "windows", domain, ".bat", LocalIp, "local"),
      Launcher("oschrome.bat.j2", "windows", domain, ".bat", lanIp, "lan") ]
  }

  const OverrideEntry: ConfigEntry := Plain("docker-compose.override.yml.j2", "docker-compose.override", ".yml")

  /** The dry-run rewrite: every output gains `.new`, nothing else changes. */
  function WithNewSuffix(cs: seq<ConfigEntry>): (r: seq<ConfigEntry>)
    ensures |r| == |cs|
    ensures forall i :: 0 <= i < |cs| ==>
              r[i].output == cs[i].output + ".new"
              && r[i].template == cs[i].template && r[i].shownAs == cs[i].shownAs && r[i].extra == cs[i].extra
  {
    seq(|cs|, i requires 0 <= i < |cs| => cs[i].(output := cs[i].output + ".new"))
  }

  /** The `configs` list as it stands when rendering starts. */
  function Configs(domain: string, lanIp: string, generateOverride: bool, dryRun: bool): (cs: seq<ConfigEntry>)
    ensures |cs| == if generateOverride then 11 else 10
  {
    var planned := BaseEntries(domain, lanIp) + (if generateOverride then [OverrideEntry] else []);
    if dryRun then WithNewSuffix(planned) else planned
  }

  /** The override file is planned exactly when it was asked for, and always last. */
  lemma OverrideOnlyWhenAsked(domain: string, lanIp: string, generateOverride: bool, dryRun: bool)
    ensures var cs := Configs(domain, lanIp, generateOverride, dryRun);
      (exists i :: 0 <= i < |cs| && cs[i].template == OverrideEntry.template) <==> generateOverride
    ensures generateOverride ==> Configs(domain, lanIp, generateOverride, dryRun)[10].template == OverrideEntry.template
  {
    var cs := Configs(domain, lanIp, generateOverride, dryRun);
    var planned := BaseEntries(domain, lanIp) + (if generateOverride then [OverrideEntry] else []);
    forall i | 0 <= i < 10
      ensures cs[i].template != OverrideEntry.template
    {
      assert cs[i].template == planned[i].template;
    }
    if generateOverride {
      assert cs[10].template == planned[10].template;
    }
  }

  /** A dry run plans the same entries as a real run, each output with `.new` appended. */
  lemma DryRunOnlyRenames(domain: string, lanIp: string, generateOverride: bool)
    ensures var applied := Configs(domain, lanIp, generateOverride, false);
      var dry := Configs(domain, lanIp, generateOverride, true);
      |dry| == |applied|
      && forall i :: 0 <= i < |applied| ==>
           dry[i] == applied[i].(output := applied[i].output + ".new")
  {
  }

  /** `part` occurs somewhere in `s`. */
  ghost predicate Contains(s: string, part: string) {
    exists k :: OccursAt(s, part, k)
  }

  predicate OccursAt(s: string, part: string, k: int) {
    0 <= k <= |s| - |part| && s[k..k + |part|] == part
  }

  /** A launcher entry's profile decides its target, and its file name carries the domain and the profile. */
  ghost predicate LauncherShaped(c: ConfigEntry, domain: string, lanIp: string) {
    c.extra.Some? ==>
      && (c.extra.value.profile == "local" || c.extra.value.profile == "lan")
      && (c.extra.value.profile == "local" ==> c.extra.value.targetIp == LocalIp)
      && (c.extra.value.profile == "lan" ==> c.extra.value.targetIp == lanIp)
      && StartsWith(c.output, "launchers/")
      && Contains(c.output, "-" + domain + "-" + c.extra.value.profile + ".")
  }

  lemma LauncherEntryShaped(template: string, platform: string, domain: string, ext: string, targetIp: string, profile: string, lanIp: string, more: string)
    requires profile == "local" || profile == "lan"
    requires profile == "local" ==> targetIp == LocalIp
    requires profile == "lan" ==> targetIp == lanIp
    requires |ext| > 0 && ext[0] == '.'
    ensures var e := Launcher(template, platform, domain, ext, targetIp, profile);
      LauncherShaped(e.(output := e.output + more), domain, lanIp)
  {
    var e := Launcher(template, platform, domain, ext, targetIp, profile);
    var out := e.output + more;
    var part := "-" + domain + "-" + profile + ".";
    var k := |"launchers/" + platform|;
    assert out == "launchers/" + platform + part + ext[1..] + more;
    assert out[k..k + |part|] == part;
    assert OccursAt(out, part, k);
    assert out[..|"launchers/"|] == "launchers/";
  }

  /** Launchers: `local` targets the loopback address, `lan` the LAN address, and the file name carries the domain. */
  lemma LaunchersFollowProfile(domain: string, lanIp: string, generateOverride: bool, dryRun: bool)
    ensures forall c :: c in Configs(domain, lanIp, generateOverride, dryRun) ==> LauncherShaped(c, domain, lanIp)
  {
    var more := if dryRun then ".new" else "";
    LauncherEntryShaped("oschrome.desktop.j2", "linux", domain, ".desktop", LocalIp, "local", lanIp, more);
    LauncherEntryShaped("oschrome.desktop.j2", "linux", domain, ".desktop", lanIp, "lan", lanIp, more);
    LauncherEntryShaped("oschrome.bat.j2", "windows", domain, ".bat", LocalIp, "local", lanIp, more);
    LauncherEntryShaped("oschrome.bat.j2", "windows", domain, ".bat", lanIp, "lan", lanIp, more);
    var planned := BaseEntries(domain, lanIp) + (if generateOverride then [OverrideEntry] else []);
    var cs := Configs(domain, lanIp, generateOverride, dryRun);
    forall i | 0 <= i < |cs|
      ensures LauncherShaped(cs[i], domain, lanIp)
    {
      assert cs[i] == planned[i].(output := planned[i].output + more);
    }
  }

  // ------------------------------------------------------- render context

  /** The context shared by every template; `generatedDate` is the formatted clock reading. */
  function BaseContext(domain: string, generatedDate: string, lanIp: string): map<string, string> {
    map["domain" := domain, "generated_date" := generatedDate, "traefik_ip" := "172.25.0.10",
        "builder_uid" := "${BUILDER_UID:-1000}", "lan_ip" := lanIp]
  }

  /** `context.copy()` updated with the entry's `extra_context`. */
  function RenderContext(base: map<string, string>, e: ConfigEntry): (ctx: map<string, string>)
    ensures e.extra.None? ==> ctx == base
    ensures e.extra.Some? ==>
              && ctx.Keys == base.Keys + {"target_ip", "profile"}
              && ctx["target_ip"] == e.extra.value.targetIp && ctx["profile"] == e.extra.value.profile
              && forall k :: k in base && k != "target_ip" && k != "profile" ==> ctx[k] == base[k]
  {
    match e.extra
    case None => base
    case Some(x) => base + map["target_ip" := x.targetIp, "profile" := x.profile]
  }

  /** Every launcher renders with the run's domain and LAN address and its own target. */
  lemma LauncherContexts(domain: string, generatedDate: string, lanIp: string, generateOverride: bool, dryRun: bool)
    ensures forall c :: c in Configs(domain, lanIp, generateOverride, dryRun) ==>
              var ctx := RenderContext(BaseContext(domain, generatedDate, lanIp), c);
              && ctx["domain"] == domain && ctx["lan_ip"] == lanIp
              && (c.extra.Some? ==> ctx["target_ip"] == (if c.extra.value.profile == "local" then LocalIp else lanIp))
  {
    LaunchersFollowProfile(domain, lanIp, generateOverride, dryRun);
  }

  // ------------------------------------------------------ executable outputs

  /**
   * The chmod guard as written at generate-config.py:305: the suffix must be
   * `.sh` or empty AND the output must end in `.sh.new`.
   */
  predicate ChmodAsWritten(output: string) {
    (Suffix(output) == ".sh" || Suffix(output) == "") && EndsWith(output, ".sh.new")
  }

  /** No output whatsoever passes the guard as written: anything ending in `.sh.new` has suffix `.new`. */
  lemma ChmodNeverFires(output: string)
    ensures !ChmodAsWritten(output)
  {
    if EndsWith(output, ".sh.new") {
      var stem := output[..|output| - 4];
      assert output == stem + ".new";
      assert stem[|stem| - 1] == 'h';
      SuffixOfExtension(stem, ".new");
    }
  }

  /** The evidently intended guard: a `.sh` or extension-less output, or a dry-run `.sh.new` one. */
  predicate MakesExecutable(output: string) {
    Suffix(output) == ".sh" || Suffix(output) == "" || EndsWith(output, ".sh.new")
  }

  /** A dot inside the tail of `out` is a dot in the tail past its first character. */
  lemma DotInside(out: string, tail: string, j: int)
    requires EndsWith(out, tail) && 0 < j < |tail| && out[|out| - |tail| + j] == '.'
    ensures '.' in tail[1..]
  {
    assert tail[1..][j - 1] == tail[j];
  }

  /** A one-dot extension is the only one-dot tail its output can end with. */
  lemma TailIsExtension(stem: string, ext: string, tail: string)
    requires |ext| >= 1 && ext[0] == '.' && '.' !in ext[1..]
    requires |tail| >= 1 && tail[0] == '.' && '.' !in tail[1..]
    requires EndsWith(stem + ext, tail)
    ensures ext == tail
  {
    var out := stem + ext;
    var n := |out|;
    if |tail| > |ext| {
      DotInside(out, tail, |tail| - |ext|);
    } else {
      assert ext[|ext| - |tail|] == out[n - |tail|] == '.';
      assert ext == out[n - |tail|..];
    }
  }

  lemma EndsWithShorter(s: string, longer: string, shorter: string)
    requires EndsWith(s, longer) && EndsWith(longer, shorter)
    ensures EndsWith(s, shorter)
  {
    assert s[|s| - |shorter|..] == s[|s| - |longer|..][|longer| - |shorter|..];
  }

  /** A real run's output, with a one-dot extension other than `.new`, never ends in `.sh.new`. */
  lemma NotShNew(stem: string, ext: string)
    requires |ext| >= 2 && ext[0] == '.' && '.' !in ext[1..] && ext != ".new"
    ensures !EndsWith(stem + ext, ".sh.new")
  {
    if EndsWith(stem + ext, ".sh.new") {
      EndsWithShorter(stem + ext, ".sh.new", ".new");
      TailIsExtension(stem, ext, ".new");
    }
  }

  /** A dry run's output ends in `.sh.new` exactly when its extension is `.sh`. */
  lemma DryShNew(stem: string, ext: string)
    requires |ext| >= 2 && ext[0] == '.' && '.' !in ext[1..]
    ensures EndsWith(stem + ext + ".new", ".sh.new") <==> ext == ".sh"
  {
    var out := stem + ext;
    var full := out + ".new";
    if EndsWith(full, ".sh.new") {
      assert out[|out| - 3..] == full[|full| - 7..|full| - 4];
      TailIsExtension(stem, ext, ".sh");
    }
    if ext == ".sh" {
      assert full[|full| - 7..] == out[|out| - 3..] + ".new";
    }
  }

  /** The outputs of a real run: executable exactly when the extension is `.sh`. */
  lemma ExecutableApplied(stem: string, ext: string)
    requires |ext| >= 2 && ext[0] == '.' && '.' !in ext[1..] && '/' !in ext && ext != ".new"
    requires stem != [] && stem[|stem| - 1] != '/'
    ensures MakesExecutable(stem + ext) <==> ext == ".sh"
  {
    SuffixOfExtension(stem, ext);
    NotShNew(stem, ext);
  }

  /** The outputs of a dry run: executable exactly when the extension before `.new` is `.sh`. */
  lemma ExecutableDry(stem: string, ext: string)
    requires |ext| >= 2 && ext[0] == '.' && '.' !in ext[1..] && '/' !in ext
    requires stem != []
    ensures MakesExecutable(stem + ext + ".new") <==> ext == ".sh"
  {
    var out := stem + ext;
    assert out[|out| - 1] == ext[|ext| - 1];
    SuffixOfExtension(out, ".new");
    DryShNew(stem, ext);
  }

  /**
   * An output made of a stem and a one-dot extension, with `.new` appended in a
   * dry run, is made executable exactly when the extension is `.sh`.
   */
  lemma ExecutableByExtension(stem: string, ext: string, dryRun: bool)
    requires |ext| >= 2 && ext[0] == '.' && '.' !in ext[1..] && '/' !in ext && ext != ".new"
    requires stem != [] && stem[|stem| - 1] != '/'
    ensures MakesExecutable(stem + ext + (if dryRun then ".new" else "")) <==> ext == ".sh"
  {
    if dryRun {
      ExecutableDry(stem, ext);
    } else {
      assert stem + ext + "" == stem + ext;
      ExecutableApplied(stem, ext);
    }
  }

  /** Every planned entry is a stem and a one-dot extension, so each is executable exactly when it is a `.sh` script. */
  lemma PlannedExecutable(e: ConfigEntry, stem: string, ext: string, dryRun: bool)
    requires e.output == stem + ext
    requires |ext| >= 2 && ext[0] == '.' && '.' !in ext[1..] && '/' !in ext && ext != ".new"
    requires stem != [] && stem[|stem| - 1] != '/'
    ensures MakesExecutable(e.output + (if dryRun then ".new" else "")) <==> ext == ".sh"
  {
    ExecutableByExtension(stem, ext, dryRun);
  }

  /** One planned entry under the intended guard: executable exactly when its template is a `.sh.j2` one. */
  lemma EntryExecutable(domain: string, lanIp: string, generateOverride: bool, dryRun: bool, i: int)
    requires 0 <= i < |Configs(domain, lanIp, generateOverride, dryRun)|
    ensures var c := Configs(domain, lanIp, generateOverride, dryRun)[i];
      MakesExecutable(c.output) <==> EndsWith(c.template, ".sh.j2")
  {
    var cs := Configs(domain, lanIp, generateOverride, dryRun);
    var base := BaseEntries(domain, lanIp);
    var planned := base + (if generateOverride then [OverrideEntry] else []);
    var more := if dryRun then ".new" else "";
    assert cs[i].output == planned[i].output + more && cs[i].template == planned[i].template;
    if i < 10 {
      assert planned[i] == base[i];
      if i < 3 {
        ConfigsExecutable(domain, lanIp, dryRun, i);
      } else if i < 6 {
        ScriptsExecutable(domain, lanIp, dryRun, i);
      } else if i < 8 {
        LinuxLauncherExecutable(domain, lanIp, dryRun, i);
      } else {
        WindowsLauncherExecutable(domain, lanIp, dryRun, i);
      }
    } else {
      assert planned[i] == OverrideEntry;
      OverrideNotExecutable(dryRun);
    }
  }

  lemma ConfigsExecutable(domain: string, lanIp: string, dryRun: bool, i: int)
    requires 0 <= i < 3
    ensures var e := BaseEntries(domain, lanIp)[i];
      !MakesExecutable(e.output + (if dryRun then ".new" else "")) && !EndsWith(e.template, ".sh.j2")
  {
    var e := BaseEntries(domain, lanIp)[i];
    if i == 0 {
      assert e == Plain("docker-compose.yml.j2", "docker-compose", ".yml");
      PlannedExecutable(e, "docker-compose", ".yml", dryRun);
    } else if i == 1 {
      assert e == Plain("traefik-dynamic.yml.j2", "traefik/dynamic", ".yml");
      PlannedExecutable(e, "traefik/dynamic", ".yml", dryRun);
    } else {
      assert e == Plain("durango-apache.conf.j2", "config/durango-apache", ".conf");
      PlannedExecutable(e, "config/durango-apache", ".conf", dryRun);
    }
  }

  lemma ScriptTemplates()
    ensures !EndsWith("orangescrum-apache.conf.j2", ".sh.j2")
    ensures EndsWith("php-trust-certs.sh.j2", ".sh.j2") && EndsWith("generate-certs.sh.j2", ".sh.j2")
  {
    assert "php-trust-certs.sh.j2" == "php-trust-certs" + ".sh.j2";
    assert "generate-certs.sh.j2" == "generate-certs" + ".sh.j2";
    assert "orangescrum-apache.conf.j2"[20] != ".sh.j2"[0];
  }

  lemma ScriptsExecutable(domain: string, lanIp: string, dryRun: bool, i: int)
    requires 3 <= i < 6
    ensures var e := BaseEntries(domain, lanIp)[i];
      MakesExecutable(e.output + (if dryRun then ".new" else "")) <==> EndsWith(e.template, ".sh.j2")
  {
    ScriptTemplates();
    var e := BaseEntries(domain, lanIp)[i];
    if i == 3 {
      assert e == Plain("orangescrum-apache.conf.j2", "config/orangescrum-apache", ".conf");
      PlannedExecutable(e, "config/orangescrum-apache", ".conf", dryRun);
    } else if i == 4 {
      assert e == Plain("php-trust-certs.sh.j2", "php-trust-certs", ".sh");
      PlannedExecutable(e, "php-trust-certs", ".sh", dryRun);
    } else {
      assert e == Plain("generate-certs.sh.j2", "generate-certs", ".sh");
      PlannedExecutable(e, "generate-certs", ".sh", dryRun);
    }
  }

  lemma OverrideNotExecutable(dryRun: bool)
    ensures !MakesExecutable(OverrideEntry.output + (if dryRun then ".new" else ""))
    ensures !EndsWith(OverrideEntry.template, ".sh.j2")
  {
    PlannedExecutable(OverrideEntry, "docker-compose.override", ".yml", dryRun);
  }

  /** No launcher, whatever the domain, is made executable. */
  lemma LauncherNeverExecutable(template: string, platform: string, domain: string, ext: string,
                                targetIp: string, profile: string, dryRun: bool)
    requires profile == "local" || profile == "lan"
    requires ext == ".desktop" || ext == ".bat"
    ensures !MakesExecutable(Launcher(template, platform, domain, ext, targetIp, profile).output
                             + (if dryRun then ".new" else ""))
  {
    var stem := LauncherStem(platform, domain, profile);
    assert stem[|stem| - 1] == profile[|profile| - 1];
    PlannedExecutable(Launcher(template, platform, domain, ext, targetIp, profile), stem, ext, dryRun);
  }

  lemma LauncherTemplatesNotShell()
    ensures !EndsWith("oschrome.desktop.j2", ".sh.j2") && !EndsWith("oschrome.bat.j2", ".sh.j2")
  {
    assert "oschrome.desktop.j2"[13] != ".sh.j2"[0];
    assert "oschrome.bat.j2"[9] != ".sh.j2"[0];
  }

  lemma LinuxLauncherExecutable(domain: string, lanIp: string, dryRun: bool, i: int)
    requires 6 <= i < 8
    ensures var e := BaseEntries(domain, lanIp)[i];
      !MakesExecutable(e.output + (if dryRun then ".new" else "")) && !EndsWith(e.template, ".sh.j2")
  {
    LauncherTemplatesNotShell();
    var e := BaseEntries(domain, lanIp)[i];
    if i == 6 {
      assert e == Launcher("oschrome.desktop.j2", "linux", domain, ".desktop", LocalIp, "local");
      LauncherNeverExecutable("oschrome.desktop.j2", "linux", domain, ".desktop", LocalIp, "local", dryRun);
    } else {
      assert e == Launcher("oschrome.desktop.j2", "linux", domain, ".desktop", lanIp, "lan");
      LauncherNeverExecutable("oschrome.desktop.j2", "linux", domain, ".desktop", lanIp, "lan", dryRun);
    }
  }

  lemma WindowsLauncherExecutable(domain: string, lanIp: string, dryRun: bool, i: int)
    requires 8 <= i < 10
    ensures var e := BaseEntries(domain, lanIp)[i];
      !MakesExecutable(e.output + (if dryRun then ".new" else "")) && !EndsWith(e.template, ".sh.j2")
  {
    LauncherTemplatesNotShell();
    var e := BaseEntries(domain, lanIp)[i];
    if i == 8 {
      assert e == Launcher("oschrome.bat.j2", "windows", domain, ".bat", LocalIp, "local");
      LauncherNeverExecutable("oschrome.bat.j2", "windows", domain, ".bat", LocalIp, "local", dryRun);
    } else {
      assert e == Launcher("oschrome.bat.j2", "windows", domain, ".bat", lanIp, "lan");
      LauncherNeverExecutable("oschrome.bat.j2", "windows", domain, ".bat", lanIp, "lan", dryRun);
    }
  }

  /**
   * With the intended guard, exactly the two shell scripts rendered from
   * `.sh.j2` templates are made executable, in a real run and in a dry run.
   */
  lemma ShellScriptsExecutable(domain: string, lanIp: string, generateOverride: bool, dryRun: bool)
    ensures var cs := Configs(domain, lanIp, generateOverride, dryRun);
      forall i :: 0 <= i < |cs| ==> (MakesExecutable(cs[i].output) <==> EndsWith(cs[i].template, ".sh.j2"))
  {
    forall i | 0 <= i < |Configs(domain, lanIp, generateOverride, dryRun)|
      ensures var c := Configs(domain, lanIp, generateOverride, dryRun)[i];
        MakesExecutable(c.output) <==> EndsWith(c.template, ".sh.j2")
    {
      EntryExecutable(domain, lanIp, generateOverride, dryRun, i);
    }
  }

  // ------------------------------------------------------------ move hints

  /** Python's `s.replace('.new', '')`: every non-overlapping `.new`, scanning left to right, removed. */
  function ReplaceNew(s: string): (r: string)
    ensures |r| <= |s|
    ensures |s| < 4 ==> r == s
  {
    if |s| < 4 then s
    else if s[..4] == ".new" then ReplaceNew(s[4..])
    else [s[0]] + ReplaceNew(s[1..])
  }

  /** A dot-free prefix passes through the replacement untouched. */
  lemma {:induction false} ReplaceNoDotPrefix(p: string, q: string)
    requires '.' !in p
    ensures ReplaceNew(p + q) == p + ReplaceNew(q)
    decreases |p|
  {
    var s := p + q;
    if p == [] {
      assert s == q;
    } else if |s| >= 4 {
      assert p[0] in p;
      assert s[..4] != ".new" by {
        assert s[..4][0] == p[0];
      }
      assert s[1..] == p[1..] + q;
      assert '.' !in p[1..] by {
        assert forall c :: c in p[1..] ==> c in p;
      }
      ReplaceNoDotPrefix(p[1..], q);
      var r := ReplaceNew(q);
      calc {
        ReplaceNew(s);
        [p[0]] + (p[1..] + r);
        ([p[0]] + p[1..]) + r;
        { assert [p[0]] + p[1..] == p; }
        p + r;
      }
    }
  }

  /** A leading `.new` is dropped. */
  lemma ReplaceDropsLeading(q: string)
    ensures ReplaceNew(".new" + q) == ReplaceNew(q)
  {
    assert (".new" + q)[..4] == ".new";
    assert (".new" + q)[4..] == q;
  }

  /** A string ending in `.new` loses at least those four characters. */
  lemma {:induction false} EndsNewShrinks(q: string)
    requires EndsWith(q, ".new")
    ensures |ReplaceNew(q)| <= |q| - 4
    decreases |q|
  {
    if |q| > 4 && q[..4] != ".new" {
      assert q[1..][|q| - 5..] == q[|q| - 4..];
      EndsNewShrinks(q[1..]);
    }
  }

  /** A `.new` that ends at least four characters before a trailing `.new` costs the replacement four more characters. */
  lemma {:induction false} InnerNewShrinks(s: string, k: nat)
    requires OccursAt(s, ".new", k) && k + 8 <= |s|
    requires EndsWith(s, ".new")
    ensures |ReplaceNew(s)| <= |s| - 8
    decreases k
  {
    if s[..4] == ".new" {
      assert s[4..][|s| - 8..] == s[|s| - 4..];
      EndsNewShrinks(s[4..]);
    } else {
      assert k != 0;
      assert s[1..][k - 1..k + 3] == s[k..k + 4];
      assert s[1..][|s| - 5..] == s[|s| - 4..];
      InnerNewShrinks(s[1..], k - 1);
    }
  }

  /** The hint as written: `mv <src> <src.replace('.new', '')>`. */
  function MvHintAsWritten(src: string): (hint: (string, string))
    ensures hint.0 == src && |hint.1| <= |src|
  {
    (src, ReplaceNew(src))
  }

  /** Behind a dot-free head, a `.new` inside the middle and the trailing `.new` both go. */
  lemma InnerNewHint(head: string, mid: string, tail: string, j: nat)
    requires '.' !in head && OccursAt(mid, ".new", j)
    ensures var hint := ReplaceNew(head + mid + tail + ".new");
      |head| <= |hint| <= |head| + |mid| + |tail| - 4 && hint[..|head|] == head
  {
    var rest := mid + tail + ".new";
    var src := head + mid + tail + ".new";
    assert src == head + rest;
    ReplaceNoDotPrefix(head, rest);
    assert src[|head| + j..|head| + j + 4] == mid[j..j + 4];
    assert src[|src| - 4..] == ".new";
    InnerNewShrinks(src, |head| + j);
  }

  /** The script's replacement on the dry-run linux `local` launcher keeps its directory and platform but loses the domain's `.new`. */
  lemma LinuxLocalHintShrinks(domain: string, j: nat)
    requires OccursAt(domain, ".new", j)
    ensures var hint := ReplaceNew(LauncherStem("linux", domain, "local") + ".desktop" + ".new");
      |hint| <= |domain| + 26 && |hint| > 10 && hint[10] == 'l'
  {
    var head := "launchers/" + "linux" + "-";
    var tail := "-" + "local" + ".desktop";
    assert '.' !in head;
    assert LauncherStem("linux", domain, "local") + ".desktop" + ".new" == head + domain + tail + ".new";
    InnerNewHint(head, domain, tail, j);
    var hint := ReplaceNew(head + domain + tail + ".new");
    assert hint[10] == hint[..|head|][10] == head[10];
  }

  /**
   * The outputs of a real run: the linux `local` launcher, a linux `lan`
   * launcher four characters shorter than it, and every other output with a
   * character other than `l` at index 10.
   */
  lemma RealOutputShapes(domain: string, lanIp: string, generateOverride: bool)
    ensures var applied := Configs(domain, lanIp, generateOverride, false);
      && applied[6].output == LauncherStem("linux", domain, "local") + ".desktop"
      && |applied[7].output| == |domain| + 28
      && forall i :: 0 <= i < |applied| && i != 6 && i != 7 ==> |applied[i].output| > 10 && applied[i].output[10] != 'l'
  {
    var applied := Configs(domain, lanIp, generateOverride, false);
    var base := BaseEntries(domain, lanIp);
    assert forall i :: 0 <= i < 10 ==> applied[i] == base[i];
    PlainOutputs(domain, lanIp);
    LauncherOutputs(domain, lanIp);
    StemShape("linux", domain, "lan", ".desktop");
    forall i | 0 <= i < |applied| && i != 6 && i != 7
      ensures |applied[i].output| > 10 && applied[i].output[10] != 'l'
    {
      if i == 0 {
        PlainEleventh("docker-compose", ".yml");
      } else if i == 1 {
        PlainEleventh("traefik/dynamic", ".yml");
      } else if i == 2 {
        PlainEleventh("config/durango-apache", ".conf");
      } else if i == 3 {
        PlainEleventh("config/orangescrum-apache", ".conf");
      } else if i == 4 {
        PlainEleventh("php-trust-certs", ".sh");
      } else if i == 5 {
        PlainEleventh("generate-certs", ".sh");
      } else if i == 8 {
        StemShape("windows", domain, "local", ".bat");
      } else if i == 9 {
        StemShape("windows", domain, "lan", ".bat");
      } else {
        assert applied[10] == OverrideEntry;
        PlainEleventh("docker-compose.override", ".yml");
      }
    }
  }

  /** The six outputs every run writes outside `launchers/`. */
  lemma PlainOutputs(domain: string, lanIp: string)
    ensures var base := BaseEntries(domain, lanIp);
      && base[0].output == "docker-compose" + ".yml"
      && base[1].output == "traefik/dynamic" + ".yml"
      && base[2].output == "config/durango-apache" + ".conf"
      && base[3].output == "config/orangescrum-apache" + ".conf"
      && base[4].output == "php-trust-certs" + ".sh"
      && base[5].output == "generate-certs" + ".sh"
  {
  }

  /** The four launcher outputs, named after platform, domain and profile. */
  lemma LauncherOutputs(domain: string, lanIp: string)
    ensures var base := BaseEntries(domain, lanIp);
      && base[6].output == LauncherStem("linux", domain, "local") + ".desktop"
      && base[7].output == LauncherStem("linux", domain, "lan") + ".desktop"
      && base[8].output == LauncherStem("windows", domain, "local") + ".bat"
      && base[9].output == LauncherStem("windows", domain, "lan") + ".bat"
  {
  }

  /** A launcher path's length, and its eleventh character, the platform's first. */
  lemma StemShape(platform: string, domain: string, profile: string, ext: string)
    requires platform != []
    ensures var o := LauncherStem(platform, domain, profile) + ext;
      |o| == 12 + |platform| + |domain| + |profile| + |ext| && o[10] == platform[0]
  {
  }

  /** A stem longer than ten characters fixes the output's eleventh character. */
  lemma PlainEleventh(stem: string, ext: string)
    requires |stem| > 10
    ensures |stem + ext| > 10 && (stem + ext)[10] == stem[10]
  {
  }

  /**
   * Whenever the domain contains `.new`, the hint the script prints for the
   * linux `local` launcher in a dry run moves the file to a path that no real
   * run with the same answers writes: `replace` drops the domain's `.new` too,
   * so the target is shorter than either linux launcher and differs from every
   * other output at its eleventh character.
   */
  lemma HintMangledWhenDomainHasNew(domain: string, lanIp: string, generateOverride: bool)
    ensures var hint := MvHintAsWritten(Configs(domain, lanIp, generateOverride, true)[6].output).1;
      var applied := Configs(domain, lanIp, generateOverride, false);
      Contains(domain, ".new") ==> forall i :: 0 <= i < |applied| ==> hint != applied[i].output
  {
    if Contains(domain, ".new") {
      var j :| OccursAt(domain, ".new", j);
      var applied := Configs(domain, lanIp, generateOverride, false);
      DryRunOnlyRenames(domain, lanIp, generateOverride);
      RealOutputShapes(domain, lanIp, generateOverride);
      LinuxLocalHintShrinks(domain, j);
      var hint := MvHintAsWritten(Configs(domain, lanIp, generateOverride, true)[6].output).1;
      assert hint == ReplaceNew(LauncherStem("linux", domain, "local") + ".desktop" + ".new");
    }
  }

  /** The evidently intended hint target: the output with its trailing `.new` cut off. */
  function MvDest(src: string): (dest: string)
    ensures EndsWith(src, ".new") ==> dest + ".new" == src
    ensures !EndsWith(src, ".new") ==> dest == src
  {
    if EndsWith(src, ".new") then src[..|src| - 4] else src
  }

  /** Every dry-run hint names exactly the file a real run with the same answers writes. */
  lemma DryHintsRestoreOutputs(domain: string, lanIp: string, generateOverride: bool)
    ensures var dry := Configs(domain, lanIp, generateOverride, true);
      var applied := Configs(domain, lanIp, generateOverride, false);
      forall i :: 0 <= i < |dry| ==> MvDest(dry[i].output) == applied[i].output
  {
    DryRunOnlyRenames(domain, lanIp, generateOverride);
    var dry := Configs(domain, lanIp, generateOverride, true);
    var applied := Configs(domain, lanIp, generateOverride, false);
    forall i | 0 <= i < |dry|
      ensures MvDest(dry[i].output) == applied[i].output
    {
      var o := applied[i].output;
      assert (o + ".new")[|o|..] == ".new";
      assert (o + ".new")[..|o|] == o;
    }
  }

  // ------------------------------------------- hints when no `.new` is inside

  /** A string without a dot holds no `.new`. */
  lemma DotlessHasNoNew(s: string)
    requires '.' !in s
    ensures !Contains(s, ".new")
  {
    forall k
      ensures !OccursAt(s, ".new", k)
    {
      if 0 <= k <= |s| - 4 {
        assert s[k..k + 4][0] == s[k] && s[k] in s;
      }
    }
  }

  /** A one-dot extension that does not start with `.n` holds no `.new`. */
  lemma ExtensionHasNoNew(ext: string)
    requires |ext| >= 2 && ext[0] == '.' && '.' !in ext[1..] && ext[1] != 'n'
    ensures !Contains(ext, ".new")
  {
    forall k
      ensures !OccursAt(ext, ".new", k)
    {
      if k == 0 && |ext| >= 4 {
        assert ext[k..k + 4][1] == ext[1];
      } else if 0 < k <= |ext| - 4 {
        assert ext[k..k + 4][0] == ext[1..][k - 1] && ext[1..][k - 1] in ext[1..];
      }
    }
  }

  /** Joining two strings free of `.new` makes none, when no `.new` can straddle the seam. */
  lemma JoinHasNoNew(a: string, b: string)
    requires !Contains(a, ".new") && !Contains(b, ".new")
    requires '.' !in a || b == [] || (b[0] != 'n' && b[0] != 'e' && b[0] != 'w')
    ensures !Contains(a + b, ".new")
  {
    var s := a + b;
    forall k
      ensures !OccursAt(s, ".new", k)
    {
      if 0 <= k && k + 4 <= |a| {
        assert s[k..k + 4] == a[k..k + 4];
        assert !OccursAt(a, ".new", k);
      } else if |a| <= k <= |s| - 4 {
        assert s[k..k + 4] == b[k - |a|..k - |a| + 4];
        assert !OccursAt(b, ".new", k - |a|);
      } else if 0 <= k < |a| && k <= |s| - 4 {
        assert s[k..k + 4][0] == a[k] && a[k] in a;
        assert s[k..k + 4][|a| - k] == b[0];
      }
    }
  }

  /** Appending `.new` to a string free of it, then removing every `.new`, gives the string back. */
  lemma {:induction false} ReplaceNewTrailing(x: string)
    requires !Contains(x, ".new")
    ensures ReplaceNew(x + ".new") == x
    decreases |x|
  {
    var s := x + ".new";
    if x == [] {
      assert s == ".new" + [];
      ReplaceDropsLeading([]);
    } else {
      if |x| >= 4 {
        assert s[..4] == x[..4];
        assert !OccursAt(x, ".new", 0);
      } else {
        assert s[..4][|x|] == '.';
      }
      assert s[1..] == x[1..] + ".new";
      forall k
        ensures !OccursAt(x[1..], ".new", k)
      {
        if 0 <= k <= |x[1..]| - 4 {
          assert x[1..][k..k + 4] == x[k + 1..k + 5];
          assert !OccursAt(x, ".new", k + 1);
        }
      }
      ReplaceNewTrailing(x[1..]);
      assert [x[0]] + x[1..] == x;
    }
  }

  /** A plain entry with a dot-free stem and a one-dot extension has no `.new` in its output. */
  lemma PlainHasNoNew(template: string, stem: string, ext: string)
    requires '.' !in stem
    requires |ext| >= 2 && ext[0] == '.' && '.' !in ext[1..] && ext[1] != 'n'
    ensures !Contains(Plain(template, stem, ext).output, ".new")
  {
    DotlessHasNoNew(stem);
    ExtensionHasNoNew(ext);
    JoinHasNoNew(stem, ext);
  }

  /** A launcher's output has a `.new` only where its domain has one. */
  lemma LauncherHasNoNew(template: string, platform: string, domain: string, ext: string, targetIp: string, profile: string)
    requires !Contains(domain, ".new")
    requires '.' !in platform && '.' !in profile && profile != [] && profile[0] == 'l'
    requires |ext| >= 2 && ext[0] == '.' && '.' !in ext[1..] && ext[1] != 'n'
    ensures !Contains(Launcher(template, platform, domain, ext, targetIp, profile).output, ".new")
  {
    var a := "launchers/" + platform + "-";
    assert '.' !in "launchers/" && '.' !in "-";
    DotlessHasNoNew(a);
    JoinHasNoNew(a, domain);
    DotlessHasNoNew("-");
    JoinHasNoNew(a + domain, "-");
    var b := a + domain + "-";
    DotlessHasNoNew(profile);
    JoinHasNoNew(b, profile);
    ExtensionHasNoNew(ext);
    JoinHasNoNew(b + profile, ext);
    assert Launcher(template, platform, domain, ext, targetIp, profile).output == b + profile + ext;
  }

  lemma ScriptsAndConfigsHaveNoNew(domain: string, lanIp: string, i: int)
    requires 0 <= i < 6
    ensures !Contains(BaseEntries(domain, lanIp)[i].output, ".new")
  {
    var e := BaseEntries(domain, lanIp)[i];
    if i == 0 {
      assert e == Plain("docker-compose.yml.j2", "docker-compose", ".yml");
      PlainHasNoNew("docker-compose.yml.j2", "docker-compose", ".yml");
    } else if i == 1 {
      assert e == Plain("traefik-dynamic.yml.j2", "traefik/dynamic", ".yml");
      PlainHasNoNew("traefik-dynamic.yml.j2", "traefik/dynamic", ".yml");
    } else if i == 2 {
      assert e == Plain("durango-apache.conf.j2", "config/durango-apache", ".conf");
      PlainHasNoNew("durango-apache.conf.j2", "config/durango-apache", ".conf");
    } else if i == 3 {
      assert e == Plain("orangescrum-apache.conf.j2", "config/orangescrum-apache", ".conf");
      PlainHasNoNew("orangescrum-apache.conf.j2", "config/orangescrum-apache", ".conf");
    } else if i == 4 {
      assert e == Plain("php-trust-certs.sh.j2", "php-trust-certs", ".sh");
      PlainHasNoNew("php-trust-certs.sh.j2", "php-trust-certs", ".sh");
    } else {
      assert e == Plain("generate-certs.sh.j2", "generate-certs", ".sh");
      PlainHasNoNew("generate-certs.sh.j2", "generate-certs", ".sh");
    }
  }

  lemma LaunchersHaveNoNew(domain: string, lanIp: string, i: int)
    requires !Contains(domain, ".new")
    requires 6 <= i < 10
    ensures !Contains(BaseEntries(domain, lanIp)[i].output, ".new")
  {
    var e := BaseEntries(domain, lanIp)[i];
    if i == 6 {
      assert e == Launcher("oschrome.desktop.j2", "linux", domain, ".desktop", LocalIp, "local");
      LauncherHasNoNew("oschrome.desktop.j2", "linux", domain, ".desktop", LocalIp, "local");
    } else if i == 7 {
      assert e == Launcher("oschrome.desktop.j2", "linux", domain, ".desktop", lanIp, "lan");
      LauncherHasNoNew("oschrome.desktop.j2", "linux", domain, ".desktop", lanIp, "lan");
    } else if i == 8 {
      assert e == Launcher("oschrome.bat.j2", "windows", domain, ".bat", LocalIp, "local");
      LauncherHasNoNew("oschrome.bat.j2", "windows", domain, ".bat", LocalIp, "local");
    } else {
      assert e == Launcher("oschrome.bat.j2", "windows", domain, ".bat", lanIp, "lan");
      LauncherHasNoNew("oschrome.bat.j2", "windows", domain, ".bat", lanIp, "lan");
    }
  }

  /** With a domain free of `.new`, no output a real run writes contains `.new`. */
  lemma PlannedOutputHasNoNew(domain: string, lanIp: string, generateOverride: bool, i: int)
    requires !Contains(domain, ".new")
    requires 0 <= i < |Configs(domain, lanIp, generateOverride, false)|
    ensures !Contains(Configs(domain, lanIp, generateOverride, false)[i].output, ".new")
  {
    var base := BaseEntries(domain, lanIp);
    var planned := base + (if generateOverride then [OverrideEntry] else []);
    assert Configs(domain, lanIp, generateOverride, false)[i] == planned[i];
    if i < 6 {
      ScriptsAndConfigsHaveNoNew(domain, lanIp, i);
    } else if i < 10 {
      LaunchersHaveNoNew(domain, lanIp, i);
    } else {
      assert planned[i] == OverrideEntry;
      assert OverrideEntry.output == "docker-compose" + ".override" + ".yml";
      DotlessHasNoNew("docker-compose");
      ExtensionHasNoNew(".override");
      JoinHasNoNew("docker-compose", ".override");
      ExtensionHasNoNew(".yml");
      JoinHasNoNew("docker-compose" + ".override", ".yml");
    }
  }

  /**
   * When the domain holds no `.new`, the hints as written do name exactly the
   * files a real run with the same answers writes.
   */
  lemma AsWrittenHintsRestoreOutputs(domain: string, lanIp: string, generateOverride: bool)
    requires !Contains(domain, ".new")
    ensures var dry := Configs(domain, lanIp, generateOverride, true);
      var applied := Configs(domain, lanIp, generateOverride, false);
      forall i :: 0 <= i < |dry| ==> MvHintAsWritten(dry[i].output).1 == applied[i].output
  {
    DryRunOnlyRenames(domain, lanIp, generateOverride);
    var dry := Configs(domain, lanIp, generateOverride, true);
    var applied := Configs(domain, lanIp, generateOverride, false);
    forall i | 0 <= i < |dry|
      ensures MvHintAsWritten(dry[i].output).1 == applied[i].output
    {
      PlannedOutputHasNoNew(domain, lanIp, generateOverride, i);
      ReplaceNewTrailing(applied[i].output);
    }
  }
}
