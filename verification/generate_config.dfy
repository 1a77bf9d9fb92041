/**
 * `generate_configurations` (generate-config.py): validate the domain, confirm
 * a domain change, pick the LAN address, ask about the override file, back up
 * the current configuration, then render every planned file in order, stopping
 * at the first one that fails, then load the next-steps template on a real run.
 * The file system, the `hostname -I` output, the operator's answers and the
 * clock reading are inputs; what the run prints and writes is its outcome.
 *
 * Two steps of the script do not do what their comments say (see
 * `ConfigPlan.ChmodNeverFires` and `ConfigPlan.HintMangledWhenDomainHasNew`).
 * The flow takes a `Guards` argument: `AsWritten` is the script as it stands,
 * `Intended` the same run with those two steps corrected.
 */
module GenerateConfig {
  import opened Wrappers
  import opened Text
  import opened Domain
  import opened Backup
  import opened ConfigPlan

  /** `response.strip().lower() in ['y', 'yes']`. */
  predicate Agrees(response: string) {
    var t := Lower(Strip(response));
    t == "y" || t == "yes"
  }

  datatype Question = ConfirmChange | AskOverride

  /**
   * What the run finds: files by relative path, the `hostname -I` output, the
   * templates, the old domain's files, and whether the uncaught file operations
   * before rendering raise: the backup (`mkdir`, `copy2`) and the archiving of
   * the old domain's files (`copy2`, `unlink`).
   */
  datatype World = World(
    files: map<string, string>,
    hostnameOutput: Option<string>,
    templatesExist: bool,
    renderable: set<string>,   // templates that load and render, and whose output (if any) can be written
    backupFault: BackupFault,
    oldDomainFiles: seq<(string, string)>,   // what the `launchers` and `certs` globs find: name and contents, in glob order
    archiveFault: ArchiveFault)

  /**
   * What goes wrong in `backup_old_domain_files`, if anything: the `copy2`
   * or the `unlink` of its k-th file (counting from 0) raises. Neither is caught.
   */
  datatype ArchiveFault = NoArchiveFault | ArchiveCopyFails(k: nat) | UnlinkFails(k: nat)

  /** Whether archiving `n` files raises. */
  predicate ArchiveRaises(n: nat, f: ArchiveFault) {
    !f.NoArchiveFault? && f.k < n
  }

  /** How many of `n` files reach the backup directory: those before the fault, and the one whose `unlink` fails. */
  function ArchivedCount(n: nat, f: ArchiveFault): (c: nat)
    ensures c <= n
    ensures !ArchiveRaises(n, f) ==> c == n
  {
    match f
    case NoArchiveFault => n
    case ArchiveCopyFails(k) => if k < n then k else n
    case UnlinkFails(k) => if k < n then k + 1 else n
  }

  /** The old domain's files that `backup_old_domain_files` copies into the backup directory before any fault. */
  function Archived(w: World): (fs: seq<(string, string)>)
    ensures |fs| <= |w.oldDomainFiles| && fs == w.oldDomainFiles[..|fs|]
    ensures !ArchiveRaises(|w.oldDomainFiles|, w.archiveFault) ==> fs == w.oldDomainFiles
  {
    w.oldDomainFiles[..ArchivedCount(|w.oldDomainFiles|, w.archiveFault)]
  }

  /** `dir` with the files `fs` copied in, in order, each under its name: a later file of the same name wins. */
  function AddFiles(dir: map<string, string>, fs: seq<(string, string)>): map<string, string> {
    if fs == [] then dir
    else
      var last := fs[|fs| - 1];
      AddFiles(dir, fs[..|fs| - 1])[last.0 := last.1]
  }

  /** After copying `fs` in, the directory gains exactly their names. */
  lemma {:induction false} AddFilesKeys(dir: map<string, string>, fs: seq<(string, string)>)
    ensures AddFiles(dir, fs).Keys == dir.Keys + (set f | f in fs :: f.0)
    decreases |fs|
  {
    if fs != [] {
      var init := fs[..|fs| - 1];
      var last := fs[|fs| - 1];
      AddFilesKeys(dir, init);
      assert fs == init + [last];
      assert (set f | f in fs :: f.0) == (set f | f in init :: f.0) + {last.0};
    }
  }

  /** Each copied file that no later one of the same name overwrites is there with its contents. */
  lemma {:induction false} AddFilesLatest(dir: map<string, string>, fs: seq<(string, string)>, i: int)
    requires 0 <= i < |fs| && forall j :: i < j < |fs| ==> fs[j].0 != fs[i].0
    ensures fs[i].0 in AddFiles(dir, fs) && AddFiles(dir, fs)[fs[i].0] == fs[i].1
    decreases |fs|
  {
    if i < |fs| - 1 {
      var init := fs[..|fs| - 1];
      assert forall j :: i < j < |init| ==> init[j] == fs[j];
      AddFilesLatest(dir, init, i);
    }
  }

  /** A name none of the copied files has keeps its old contents. */
  lemma {:induction false} AddFilesOthers(dir: map<string, string>, fs: seq<(string, string)>, k: string)
    requires k in dir && forall f :: f in fs ==> f.0 != k
    ensures k in AddFiles(dir, fs) && AddFiles(dir, fs)[k] == dir[k]
    decreases |fs|
  {
    if fs != [] {
      var init := fs[..|fs| - 1];
      assert forall f :: f in init ==> f in fs;
      AddFilesOthers(dir, init, k);
    }
  }

  /**
   * The operator's two answers. `confirm` is None when input ends at the change
   * prompt (an uncaught `EOFError`); `overrideFile` is None when input ends or
   * is interrupted at the override prompt, which the script reads as no.
   */
  datatype Answers = Answers(confirm: Option<string>, overrideFile: Option<string>)

  /** One rendered file: its output path, its template, the context it saw, whether it was made executable. */
  datatype Written = Written(output: string, template: string, context: map<string, string>, executable: bool)

  /**
   * What a run did: its exit status, the questions it asked, the backup
   * directory as far as it was filled (None when the run never got that far,
   * empty when its `mkdir` failed), whether it went on to archive (copy into
   * the backup, then delete) the old domain's files, the files it wrote in
   * order, and the `mv` hints.
   */
  datatype Outcome = Outcome(
    exitCode: int,
    asked: seq<Question>,
    backupDir: Option<map<string, string>>,
    archivedOldDomain: bool,
    written: seq<Written>,
    hints: seq<(string, string)>)

  /** The chmod test and the hint destination as the script has them, or as evidently intended. */
  datatype Guards = AsWritten | Intended

  const ComposeFile: string := "docker-compose.yml"

  /** The template `print_next_steps` loads after a real run; a failure there is not caught. */
  const NextStepsTemplate: string := "next-steps.txt.j2"

  /** `detect_current_domain` on the working directory. */
  function CurrentDomain(w: World): (r: Option<string>)
    ensures r.Some? ==> ValidateDomain(r.value)
  {
    DetectCurrentDomain(ComposeFile in w.files, if ComposeFile in w.files then Some(w.files[ComposeFile]) else None)
  }

  /** `current_domain and current_domain != domain`. */
  predicate Changing(w: World, domain: string) {
    var current := CurrentDomain(w);
    current.Some? && current.value != [] && current.value != domain
  }

  /** The backup copies every existing listed file without raising. */
  predicate BackupCompletes(w: World) {
    !Raises(Present(FilesToBackup, w.files), w.backupFault)
  }

  /** The backup directory `backup_files` leaves: the empty directory with the copied files added. */
  function BackupDir(w: World): map<string, string> {
    var copied := Copied(Present(FilesToBackup, w.files), w.backupFault);
    assert forall e :: e in copied ==> e in Present(FilesToBackup, w.files);
    BackupInto(map[], copied, w.files)
  }

  /** The backup directory once `backup_files` and, if it ran, `backup_old_domain_files` are done. */
  function BackupAfter(w: World, archived: bool): map<string, string> {
    if archived then AddFiles(BackupDir(w), Archived(w)) else BackupDir(w)
  }

  /** Neither the backup nor the archiving of the old domain's files raises, so rendering begins. */
  predicate ReachesTemplates(w: World, domain: string) {
    BackupCompletes(w) && !(Changing(w, domain) && ArchiveRaises(|w.oldDomainFiles|, w.archiveFault))
  }

  /** `generate_override`: asked only outside a dry run; an ended or interrupted answer means no. */
  predicate GenerateOverride(dryRun: bool, ans: Answers) {
    !dryRun && ans.overrideFile.Some? && Agrees(ans.overrideFile.value)
  }

  /** The index of the first config whose template fails, or the number of configs. */
  function FirstFailure(cs: seq<ConfigEntry>, ok: set<string>): (n: nat)
    ensures n <= |cs|
    ensures forall j :: 0 <= j < n ==> cs[j].template in ok
    ensures n < |cs| ==> cs[n].template !in ok
  {
    if cs == [] || cs[0].template !in ok then 0 else 1 + FirstFailure(cs[1..], ok)
  }

  /** Whether the chmod step makes `output` executable. */
  predicate Chmods(g: Guards, output: string) {
    match g
    case AsWritten => ChmodAsWritten(output)
    case Intended => MakesExecutable(output)
  }

  /** One loop iteration that got through: the file written with its merged context and mode. */
  function Render(g: Guards, base: map<string, string>, c: ConfigEntry): Written {
    Written(c.output, c.template, RenderContext(base, c), Chmods(g, c.output))
  }

  function RenderAll(g: Guards, base: map<string, string>, cs: seq<ConfigEntry>): (ws: seq<Written>)
    ensures |ws| == |cs|
    ensures forall i :: 0 <= i < |cs| ==> ws[i] == Render(g, base, cs[i])
  {
    seq(|cs|, i requires 0 <= i < |cs| => Render(g, base, cs[i]))
  }

  /** The destination a dry-run hint names for `src`. */
  function HintDest(g: Guards, src: string): string {
    match g
    case AsWritten => MvHintAsWritten(src).1
    case Intended => MvDest(src)
  }

  /** The dry-run `mv` hints, one per config, in order. */
  function Hints(g: Guards, cs: seq<ConfigEntry>): (hs: seq<(string, string)>)
    ensures |hs| == |cs|
    ensures forall i :: 0 <= i < |cs| ==> hs[i] == (cs[i].output, HintDest(g, cs[i].output))
  {
    seq(|cs|, i requires 0 <= i < |cs| => (cs[i].output, HintDest(g, cs[i].output)))
  }

  /** The configs a run that got past the questions plans. */
  function Planned(domain: string, dryRun: bool, w: World, ans: Answers): seq<ConfigEntry> {
    Configs(domain, LanIp(w.hostnameOutput), GenerateOverride(dryRun, ans), dryRun)
  }

  /** The prompts a run that gets past the change prompt has shown: the change prompt if any, then the override one. */
  function Asked(changing: bool, dryRun: bool): (q: seq<Question>)
    ensures ConfirmChange in q <==> changing
    ensures AskOverride in q <==> !dryRun
  {
    (if changing then [ConfirmChange] else []) + (if dryRun then [] else [AskOverride])
  }

  /** What the part of the run after the backup produced: its exit status, the files written, the hints. */
  datatype Rendered = Rendered(exitCode: int, written: seq<Written>, hints: seq<(string, string)>)

  /**
   * The part of the run after the backup: find the templates, render the
   * planned configs in order until one fails, then print the hints (dry run) or
   * load the next-steps template (real run).
   */
  function RenderPhase(g: Guards, domain: string, dryRun: bool, w: World, ans: Answers, generatedDate: string)
    : (r: Rendered)
    ensures r.exitCode == 0 || r.exitCode == 1
    ensures !w.templatesExist ==> r == Rendered(1, [], [])
    ensures r.hints != [] ==> dryRun && r.exitCode == 0
    ensures !dryRun && r.exitCode == 0 ==> NextStepsTemplate in w.renderable
  {
    if !w.templatesExist then Rendered(1, [], [])
    else
      var cs := Planned(domain, dryRun, w, ans);
      var n := FirstFailure(cs, w.renderable);
      var written := RenderAll(g, BaseContext(domain, generatedDate, LanIp(w.hostnameOutput)), cs[..n]);
      if n < |cs| then Rendered(1, written, [])
      else if dryRun then Rendered(0, written, Hints(g, cs))
      else Rendered(if NextStepsTemplate in w.renderable then 0 else 1, written, [])
  }

  /**
   * Rendering: the files written are the planned configs in order up to the
   * first template that fails; the phase succeeds exactly when there is none
   * and, on a real run, the next-steps template renders too; a successful dry
   * run prints one hint per config.
   */
  lemma RenderPhaseWrites(g: Guards, domain: string, dryRun: bool, w: World, ans: Answers, generatedDate: string)
    requires w.templatesExist
    ensures var r := RenderPhase(g, domain, dryRun, w, ans, generatedDate);
      var cs := Planned(domain, dryRun, w, ans);
      var base := BaseContext(domain, generatedDate, LanIp(w.hostnameOutput));
      && |r.written| <= |cs|
      && (forall i :: 0 <= i < |r.written| ==> r.written[i] == Render(g, base, cs[i]) && cs[i].template in w.renderable)
      && (|r.written| < |cs| ==> cs[|r.written|].template !in w.renderable)
      && (r.exitCode == 0 <==> |r.written| == |cs| && (dryRun || NextStepsTemplate in w.renderable))
      && (dryRun && r.exitCode == 0 ==> r.hints == Hints(g, cs))
  {
  }

  /** `generate_configurations(domain, dry_run)`, followed on a real run by `print_next_steps`. */
  function GenerateConfigurations(g: Guards, domain: string, dryRun: bool, w: World, ans: Answers, generatedDate: string)
    : (o: Outcome)
    ensures o.exitCode == 0 || o.exitCode == 1
    // An invalid domain stops the run before anything is asked or touched.
    ensures !ValidateDomain(domain) ==> o == Outcome(1, [], None, false, [], [])
    // The change is confirmed exactly when a different domain is configured now.
    ensures ConfirmChange in o.asked <==> ValidateDomain(domain) && Changing(w, domain)
    // The override question never comes up in a dry run.
    ensures AskOverride in o.asked ==> !dryRun
    // Nothing is backed up or written unless the run got past validation and confirmation.
    ensures o.backupDir.Some? <==>
              ValidateDomain(domain) && (Changing(w, domain) ==> ans.confirm.Some? && Agrees(ans.confirm.value))
    // Whatever happens afterwards, the backup directory holds what `backup_files` copied,
    // and after archiving, the old domain's files that reached it.
    ensures o.backupDir.Some? ==> o.backupDir.value == BackupAfter(w, o.archivedOldDomain)
    ensures o.written != [] ==> o.backupDir.Some? && ReachesTemplates(w, domain) && w.templatesExist
    // The old domain's files are archived only after a complete backup.
    ensures o.archivedOldDomain <==> o.backupDir.Some? && Changing(w, domain) && BackupCompletes(w)
    // A backup or archiving error is not caught: status 1, nothing rendered.
    ensures o.backupDir.Some? && !ReachesTemplates(w, domain) ==> o.exitCode == 1 && o.written == [] && o.hints == []
    ensures o.hints != [] ==> dryRun && o.exitCode == 0
    // A real run that wrote everything still fails when the next-steps template does not load or render.
    ensures !dryRun && o.exitCode == 0 && o.backupDir.Some? ==> NextStepsTemplate in w.renderable
  {
    if !ValidateDomain(domain) then Outcome(1, [], None, false, [], [])
    else
      var changing := Changing(w, domain);
      var confirmAsked := if changing then [ConfirmChange] else [];
      if changing && ans.confirm.None? then Outcome(1, confirmAsked, None, false, [], [])
      else if changing && !Agrees(ans.confirm.value) then Outcome(0, confirmAsked, None, false, [], [])
      else
        var asked := Asked(changing, dryRun);
        var present := Present(FilesToBackup, w.files);
        var backup := BackupDir(w);
        if Raises(present, w.backupFault) then Outcome(1, asked, Some(backup), false, [], [])
        else
          var dir := BackupAfter(w, changing);
          if changing && ArchiveRaises(|w.oldDomainFiles|, w.archiveFault) then Outcome(1, asked, Some(dir), true, [], [])
          else
            var r := RenderPhase(g, domain, dryRun, w, ans, generatedDate);
            Outcome(r.exitCode, asked, Some(dir), changing, r.written, r.hints)
  }

  /** Input ending at the change prompt aborts with status 1, a refusal with status 0; neither touches a file. */
  lemma ChangeNeedsConsent(g: Guards, domain: string, dryRun: bool, w: World, ans: Answers, generatedDate: string)
    requires ValidateDomain(domain) && Changing(w, domain)
    ensures var o := GenerateConfigurations(g, domain, dryRun, w, ans, generatedDate);
      && (ans.confirm.None? ==> o.exitCode == 1 && o.backupDir.None? && o.written == [])
      && (ans.confirm.Some? && !Agrees(ans.confirm.value) ==> o.exitCode == 0 && o.backupDir.None? && o.written == [])
      && (ans.confirm.Some? && Agrees(ans.confirm.value) && BackupCompletes(w) ==> o.archivedOldDomain)
  {
  }

  /** `name` is in `dir` with the contents `path` has in `files`. */
  predicate HoldsFile(dir: map<string, string>, name: string, files: map<string, string>, path: string) {
    path in files && name in dir && dir[name] == files[path]
  }

  /** The names of the archived files. */
  function Names(fs: seq<(string, string)>): set<string> {
    set f | f in fs :: f.0
  }

  /** No file after the i-th in `fs` has its name, so the i-th is the one a directory keeps. */
  predicate LastOfName(fs: seq<(string, string)>, i: int) {
    0 <= i < |fs| && forall j :: i < j < |fs| ==> fs[j].0 != fs[i].0
  }

  /**
   * The backup directory holds exactly the listed files copied before any
   * fault and, once archiving ran, the old domain's files that reached it. A
   * listed file keeps its contents unless an archived file of the same name
   * overwrote it; an archived file keeps its contents unless a later one of the
   * same name did. Once the backup completes, that covers every listed file
   * that exists, and without a domain change nothing else is in it.
   */
  lemma BackupHoldsEveryListedFile(g: Guards, domain: string, dryRun: bool, w: World, ans: Answers, generatedDate: string)
    ensures var o := GenerateConfigurations(g, domain, dryRun, w, ans, generatedDate);
      var arch := if o.archivedOldDomain then Archived(w) else [];
      o.backupDir.Some? ==> BackupThenArchiveHolds(w, arch, o.backupDir.value)
  {
    var o := GenerateConfigurations(g, domain, dryRun, w, ans, generatedDate);
    if o.backupDir.Some? {
      var arch := if o.archivedOldDomain then Archived(w) else [];
      assert o.backupDir.value == BackupAfter(w, o.archivedOldDomain) == AddFiles(BackupDir(w), arch);
      BackupThenArchive(w, arch);
    }
  }

  /**
   * `dir` holds the copied listed files and the archived files `arch` and
   * nothing else; each has its contents unless a file of the same name came
   * after it; with a complete backup, every existing listed file is covered.
   */
  predicate BackupThenArchiveHolds(w: World, arch: seq<(string, string)>, dir: map<string, string>) {
    var copied := Copied(Present(FilesToBackup, w.files), w.backupFault);
    && dir.Keys == (set e | e in copied :: e.name) + Names(arch)
    && (forall e :: e in copied && e.name !in Names(arch) ==> HoldsFile(dir, e.name, w.files, PathOf(e)))
    && (forall i :: 0 <= i < |arch| && LastOfName(arch, i) ==> arch[i].0 in dir && dir[arch[i].0] == arch[i].1)
    && (BackupCompletes(w) ==>
          forall e :: e in FilesToBackup && PathOf(e) in w.files && e.name !in Names(arch) ==>
            HoldsFile(dir, e.name, w.files, PathOf(e)))
  }

  /** The backup directory of `backup_files` with the archived files `arch` copied in after it. */
  lemma BackupThenArchive(w: World, arch: seq<(string, string)>)
    ensures BackupThenArchiveHolds(w, arch, AddFiles(BackupDir(w), arch))
  {
    var backup := BackupDir(w);
    var dir := AddFiles(backup, arch);
    var copied := Copied(Present(FilesToBackup, w.files), w.backupFault);
    BackupDirHolds(w);
    AddFilesKeys(backup, arch);
    forall e | e in copied && e.name !in Names(arch)
      ensures HoldsFile(dir, e.name, w.files, PathOf(e))
    {
      AddFilesOthers(backup, arch, e.name);
    }
    forall i | 0 <= i < |arch| && LastOfName(arch, i)
      ensures arch[i].0 in dir && dir[arch[i].0] == arch[i].1
    {
      AddFilesLatest(backup, arch, i);
    }
    if BackupCompletes(w) {
      forall e | e in FilesToBackup && PathOf(e) in w.files && e.name !in Names(arch)
        ensures HoldsFile(dir, e.name, w.files, PathOf(e))
      {
        AddFilesOthers(backup, arch, e.name);
      }
    }
  }

  /** `backup_files` alone: the copied files under their names, every existing listed one once it completes. */
  lemma BackupDirHolds(w: World)
    ensures var copied := Copied(Present(FilesToBackup, w.files), w.backupFault);
      var dir := BackupDir(w);
      && dir.Keys == (set e | e in copied :: e.name)
      && (forall e :: e in copied ==> HoldsFile(dir, e.name, w.files, PathOf(e)))
      && (BackupCompletes(w) ==>
            forall e :: e in FilesToBackup && PathOf(e) in w.files ==> HoldsFile(dir, e.name, w.files, PathOf(e)))
  {
    var present := Present(FilesToBackup, w.files);
    var copied := Copied(present, w.backupFault);
    assert forall e :: e in copied ==> e in present;
    var none: map<string, string> := map[];
    BackupKeepsCopied(w.files, none, w.backupFault);
    assert none.Keys + (set e | e in copied :: e.name) == (set e | e in copied :: e.name);
    if BackupCompletes(w) {
      assert copied == present;
      BackupKeepsEveryFile(w.files, none);
    }
  }

  /**
   * Rendering: the files written are the planned configs in order up to the
   * first template that fails; the run succeeds exactly when there is none and,
   * on a real run, the next-steps template renders too.
   */
  lemma WritesPlannedPrefix(g: Guards, domain: string, dryRun: bool, w: World, ans: Answers, generatedDate: string)
    requires w.templatesExist
    ensures var o := GenerateConfigurations(g, domain, dryRun, w, ans, generatedDate);
      var cs := Planned(domain, dryRun, w, ans);
      var base := BaseContext(domain, generatedDate, LanIp(w.hostnameOutput));
      o.backupDir.Some? && ReachesTemplates(w, domain) ==>
        && |o.written| <= |cs|
        && (forall i :: 0 <= i < |o.written| ==> o.written[i] == Render(g, base, cs[i]) && cs[i].template in w.renderable)
        && (o.exitCode == 0 <==> |o.written| == |cs| && (dryRun || NextStepsTemplate in w.renderable))
        && (|o.written| < |cs| ==> cs[|o.written|].template !in w.renderable)
  {
    RenderPhaseWrites(g, domain, dryRun, w, ans, generatedDate);
  }

  /** Every file written is a planned one, rendered with the run's guards. */
  lemma WrittenArePlanned(g: Guards, domain: string, dryRun: bool, w: World, ans: Answers, generatedDate: string)
    ensures var o := GenerateConfigurations(g, domain, dryRun, w, ans, generatedDate);
      var cs := Planned(domain, dryRun, w, ans);
      var base := BaseContext(domain, generatedDate, LanIp(w.hostnameOutput));
      |o.written| <= |cs| && forall i :: 0 <= i < |o.written| ==> o.written[i] == Render(g, base, cs[i])
  {
    var o := GenerateConfigurations(g, domain, dryRun, w, ans, generatedDate);
    if o.written != [] {
      WritesPlannedPrefix(g, domain, dryRun, w, ans, generatedDate);
    }
  }

  /** As the script stands, no file it writes is made executable, the shell scripts included. */
  lemma NoFileMadeExecutable(domain: string, dryRun: bool, w: World, ans: Answers, generatedDate: string)
    ensures var o := GenerateConfigurations(AsWritten, domain, dryRun, w, ans, generatedDate);
      forall i :: 0 <= i < |o.written| ==> !o.written[i].executable
  {
    var o := GenerateConfigurations(AsWritten, domain, dryRun, w, ans, generatedDate);
    WrittenArePlanned(AsWritten, domain, dryRun, w, ans, generatedDate);
    forall i | 0 <= i < |o.written|
      ensures !o.written[i].executable
    {
      ChmodNeverFires(o.written[i].output);
    }
  }

  /** With the intended chmod test, exactly the files rendered from shell-script templates are made executable. */
  lemma OnlyScriptsExecutable(domain: string, dryRun: bool, w: World, ans: Answers, generatedDate: string)
    ensures var o := GenerateConfigurations(Intended, domain, dryRun, w, ans, generatedDate);
      forall i :: 0 <= i < |o.written| ==> (o.written[i].executable <==> EndsWith(o.written[i].template, ".sh.j2"))
  {
    WrittenArePlanned(Intended, domain, dryRun, w, ans, generatedDate);
    ShellScriptsExecutable(domain, LanIp(w.hostnameOutput), GenerateOverride(dryRun, ans), dryRun);
  }

  /** Every file is rendered with the run's domain and LAN address. */
  lemma ContextsCarryDomain(g: Guards, domain: string, dryRun: bool, w: World, ans: Answers, generatedDate: string)
    ensures var o := GenerateConfigurations(g, domain, dryRun, w, ans, generatedDate);
      forall i :: 0 <= i < |o.written| ==>
        && "domain" in o.written[i].context && o.written[i].context["domain"] == domain
        && "lan_ip" in o.written[i].context && o.written[i].context["lan_ip"] == LanIp(w.hostnameOutput)
  {
    var o := GenerateConfigurations(g, domain, dryRun, w, ans, generatedDate);
    var lanIp := LanIp(w.hostnameOutput);
    var base := BaseContext(domain, generatedDate, lanIp);
    assert "domain" in base && base["domain"] == domain;
    assert "lan_ip" in base && base["lan_ip"] == lanIp;
    WrittenArePlanned(g, domain, dryRun, w, ans, generatedDate);
    var cs := Planned(domain, dryRun, w, ans);
    forall i | 0 <= i < |o.written|
      ensures "domain" in o.written[i].context && o.written[i].context["domain"] == domain
      ensures "lan_ip" in o.written[i].context && o.written[i].context["lan_ip"] == lanIp
    {
      assert o.written[i].context == RenderContext(base, cs[i]);
      RenderKeeps(base, cs[i], "domain");
      RenderKeeps(base, cs[i], "lan_ip");
    }
  }

  /** The merged context keeps every shared entry other than the two launcher keys. */
  lemma RenderKeeps(base: map<string, string>, c: ConfigEntry, k: string)
    requires k in base && k != "target_ip" && k != "profile"
    ensures k in RenderContext(base, c) && RenderContext(base, c)[k] == base[k]
  {
  }

  /**
   * A dry run renders only `.new` files and never asks about the override,
   * but it is not free of side effects: it fills the same backup directory and
   * archives (copies, then deletes) the old domain's files exactly as a real
   * run with the same confirmation would.
   */
  lemma DryRunIsReviewable(g: Guards, domain: string, w: World, ans: Answers, generatedDate: string)
    ensures var o := GenerateConfigurations(g, domain, true, w, ans, generatedDate);
      var applied := GenerateConfigurations(g, domain, false, w, ans, generatedDate);
      && AskOverride !in o.asked
      && (forall i :: 0 <= i < |o.written| ==> EndsWith(o.written[i].output, ".new"))
      && o.backupDir == applied.backupDir
      && (o.archivedOldDomain <==> applied.archivedOldDomain)
      && (o.archivedOldDomain <==> o.backupDir.Some? && Changing(w, domain) && BackupCompletes(w))
  {
    var o := GenerateConfigurations(g, domain, true, w, ans, generatedDate);
    var lanIp := LanIp(w.hostnameOutput);
    DryRunOnlyRenames(domain, lanIp, false);
    WrittenArePlanned(g, domain, true, w, ans, generatedDate);
    var cs := Planned(domain, true, w, ans);
    var applied := Configs(domain, lanIp, false, false);
    forall i | 0 <= i < |o.written|
      ensures EndsWith(o.written[i].output, ".new")
    {
      assert o.written[i].output == applied[i].output + ".new";
      assert (applied[i].output + ".new")[|applied[i].output|..] == ".new";
    }
  }

  /**
   * After a successful dry run there is one `mv` hint per file, and each moves
   * the file onto exactly the path a real run writes when the override is
   * declined: always with the intended destination, and with the script's
   * `replace('.new', '')` whenever the domain itself holds no `.new`.
   */
  lemma DryHintsNameRealOutputs(g: Guards, domain: string, w: World, ans: Answers, generatedDate: string)
    ensures var o := GenerateConfigurations(g, domain, true, w, ans, generatedDate);
      var applied := Planned(domain, false, w, Answers(ans.confirm, None));
      && (o.exitCode == 0 && o.backupDir.Some? && w.templatesExist ==> |o.hints| == |applied|)
      && (g == Intended || !Contains(domain, ".new") ==>
            forall i :: 0 <= i < |o.hints| && i < |applied| ==> o.hints[i].1 == applied[i].output)
  {
    var lanIp := LanIp(w.hostnameOutput);
    DryRunOnlyRenames(domain, lanIp, false);
    DryHintsRestoreOutputs(domain, lanIp, false);
    if g == AsWritten && !Contains(domain, ".new") {
      AsWrittenHintsRestoreOutputs(domain, lanIp, false);
    }
  }

  /** The override file is written only in a real run whose operator said yes. */
  lemma OverrideNeedsYes(g: Guards, domain: string, dryRun: bool, w: World, ans: Answers, generatedDate: string)
    ensures var o := GenerateConfigurations(g, domain, dryRun, w, ans, generatedDate);
      forall i :: 0 <= i < |o.written| && o.written[i].template == OverrideEntry.template ==>
        !dryRun && ans.overrideFile.Some? && Agrees(ans.overrideFile.value)
  {
    WrittenArePlanned(g, domain, dryRun, w, ans, generatedDate);
    OverrideOnlyWhenAsked(domain, LanIp(w.hostnameOutput), GenerateOverride(dryRun, ans), dryRun);
  }

  /**
   * `a.news` passes validation, yet the hint the script prints for its linux
   * `local` launcher in a dry run names a path a real run never writes.
   */
  lemma NewsDomainHintMangled(lanIp: string)
    ensures ValidateDomain("a" + ".new" + "s")
    ensures MvHintAsWritten(Configs("a" + ".new" + "s", lanIp, false, true)[6].output).1
              != Configs("a" + ".new" + "s", lanIp, false, false)[6].output
  {
    assert ShapeAt("a" + ".new" + "s", 1);
    assert OccursAt("a" + ".new" + "s", ".new", 1);
    HintMangledWhenDomainHasNew("a" + ".new" + "s", lanIp, false);
  }
}
