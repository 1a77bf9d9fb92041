/**
 * `main` of cloud-builder/build.py: the `--check` short cut, the pre-flight
 * gate, the ordered build plan chosen by the flags, and the run of that plan
 * up to the first step that raises, with the Docker client closed on every
 * path that opened it.
 */
module Pipeline {
  import opened Wrappers
  import BuildEnv
  import Archive
  import BaseImage
  import BinaryExtract
  import HealthPoll

  /** Every side-effecting step of a build, declared in execution order. */
  datatype Step =
    | CleanPackage | PreparePackage | ArchiveRepo | ExtractArchive | RemoveArchive | CopyOverrides
    | EnsureBaseImage | BuildEmbed | StartBuilder | CopyBinary | StopBuilder | RemovePackage
    | EnsureAppEnv | Deploy | WaitHealthy

  function Rank(s: Step): nat {
    match s
    case CleanPackage => 0
    case PreparePackage => 1
    case ArchiveRepo => 2
    case ExtractArchive => 3
    case RemoveArchive => 4
    case CopyOverrides => 5
    case EnsureBaseImage => 6
    case BuildEmbed => 7
    case StartBuilder => 8
    case CopyBinary => 9
    case StopBuilder => 10
    case RemovePackage => 11
    case EnsureAppEnv => 12
    case Deploy => 13
    case WaitHealthy => 14
  }

  /** Every step, in execution order. */
  const AllSteps: seq<Step> :=
    [CleanPackage, PreparePackage, ArchiveRepo, ExtractArchive, RemoveArchive, CopyOverrides,
     EnsureBaseImage, BuildEmbed, StartBuilder, CopyBinary, StopBuilder, RemovePackage,
     EnsureAppEnv, Deploy, WaitHealthy]

  lemma AllStepsIndexed()
    ensures |AllSteps| == 15
    ensures forall i :: 0 <= i < |AllSteps| ==> Rank(AllSteps[i]) == i
  {
  }

  lemma AllStepsComplete(s: Step)
    ensures s in AllSteps
  {
    assert AllSteps[Rank(s)] == s;
  }

  /** Steps appear in execution order, each at most once. */
  predicate Ordered(p: seq<Step>) {
    forall i, j :: 0 <= i < j < |p| ==> Rank(p[i]) < Rank(p[j])
  }

  lemma AllStepsOrdered()
    ensures Ordered(AllSteps)
  {
    AllStepsIndexed();
  }

  /**
   * Whether step `s` runs for these flags when nothing raises. The package
   * directory exists when the clean-up test runs if the archive steps
   * recreated it or it was there already.
   */
  predicate Planned(a: BuildEnv.CliArgs, packageExists: bool, s: Step) {
    match s
    case CleanPackage => a.clean && packageExists
    case PreparePackage => !a.skipArchive
    case ArchiveRepo => !a.skipArchive
    case ExtractArchive => !a.skipArchive
    case RemoveArchive => !a.skipArchive
    case CopyOverrides => !a.skipArchive
    case EnsureBaseImage => !a.skipBase
    case BuildEmbed => true
    case StartBuilder => true
    case CopyBinary => true
    case StopBuilder => true
    case RemovePackage => !a.keepPackage && (!a.skipArchive || packageExists)
    case EnsureAppEnv => !a.skipDeploy
    case Deploy => !a.skipDeploy
    case WaitHealthy => !a.skipDeploy
  }

  /** `p` with the steps in `drop` taken out, order kept. */
  function Without(p: seq<Step>, drop: set<Step>): (r: seq<Step>)
    ensures forall s :: s in r <==> s in p && s !in drop
    ensures |r| <= |p|
  {
    if p == [] then []
    else if p[0] in drop then Without(p[1..], drop)
    else [p[0]] + Without(p[1..], drop)
  }

  lemma {:induction false} WithoutOrdered(p: seq<Step>, drop: set<Step>)
    requires Ordered(p)
    ensures Ordered(Without(p, drop))
  {
    if p != [] {
      var rest := Without(p[1..], drop);
      assert Ordered(p[1..]);
      WithoutOrdered(p[1..], drop);
      if p[0] !in drop {
        var r := [p[0]] + rest;
        forall i, j | 0 <= i < j < |r|
          ensures Rank(r[i]) < Rank(r[j])
        {
          assert r[j] == rest[j - 1];
          if i > 0 {
            assert r[i] == rest[i - 1];
          } else {
            assert rest[j - 1] in p[1..];
            var k :| 1 <= k < |p| && p[k] == r[j];
          }
        }
      }
    }
  }

  /** The steps the flags switch off. */
  function Skipped(a: BuildEnv.CliArgs, packageExists: bool): set<Step> {
    set s | s in AllSteps && !Planned(a, packageExists, s)
  }

  /** The steps of the `try` block, in the order they run when none raises. */
  function Plan(a: BuildEnv.CliArgs, packageExists: bool): (p: seq<Step>)
    ensures Ordered(p)
    ensures forall s :: s in p <==> Planned(a, packageExists, s)
  {
    AllStepsOrdered();
    WithoutOrdered(AllSteps, Skipped(a, packageExists));
    var p := Without(AllSteps, Skipped(a, packageExists));
    assert forall s :: s in p <==> Planned(a, packageExists, s) by {
      forall s
        ensures s in p <==> Planned(a, packageExists, s)
      {
        AllStepsComplete(s);
      }
    }
    p
  }

  lemma SameEmptiness(p: seq<Step>, q: seq<Step>)
    requires forall s :: s in p <==> s in q
    ensures p == [] <==> q == []
  {
    if p != [] {
      assert p[0] in q;
    }
    if q != [] {
      assert q[0] in p;
    }
  }

  /** Two ordered plans with the same steps are the same plan. */
  lemma {:induction false} OrderedUnique(p: seq<Step>, q: seq<Step>)
    requires Ordered(p) && Ordered(q)
    requires forall s :: s in p <==> s in q
    ensures p == q
    decreases |p| + |q|
  {
    SameEmptiness(p, q);
    if p != [] {
      assert p[0] in q;
      assert q[0] in p;
      assert p[0] == q[0];
      forall s
        ensures s in p[1..] <==> s in q[1..]
      {
        if s in p[1..] {
          var i :| 1 <= i < |p| && p[i] == s;
          assert s in q;
        }
        if s in q[1..] {
          var i :| 1 <= i < |q| && q[i] == s;
          assert s in p;
        }
      }
      OrderedUnique(p[1..], q[1..]);
      assert p == [p[0]] + p[1..];
      assert q == [q[0]] + q[1..];
    }
  }

  /** Plans that differ from `Plan(a)` by exactly the steps in `drop` are `Plan(a)` without them. */
  lemma PlanDrops(a: BuildEnv.CliArgs, b: BuildEnv.CliArgs, packageExists: bool, drop: set<Step>)
    requires forall s :: Planned(b, packageExists, s) <==> Planned(a, packageExists, s) && s !in drop
    ensures Plan(b, packageExists) == Without(Plan(a, packageExists), drop)
  {
    WithoutOrdered(Plan(a, packageExists), drop);
    OrderedUnique(Plan(b, packageExists), Without(Plan(a, packageExists), drop));
  }

  const DeploySteps: set<Step> := {EnsureAppEnv, Deploy, WaitHealthy}
  const ArchiveSteps: set<Step> := {PreparePackage, ArchiveRepo, ExtractArchive, RemoveArchive, CopyOverrides}

  /** `--skip-deploy` drops the three deploy steps and nothing else. */
  lemma SkipDeployDropsOnlyDeploy(a: BuildEnv.CliArgs, packageExists: bool)
    ensures Plan(a.(skipDeploy := true), packageExists) == Without(Plan(a, packageExists), DeploySteps)
  {
    PlanDrops(a, a.(skipDeploy := true), packageExists, DeploySteps);
  }

  /** `--skip-base` drops the base-image step and nothing else. */
  lemma SkipBaseDropsOnlyBase(a: BuildEnv.CliArgs, packageExists: bool)
    ensures Plan(a.(skipBase := true), packageExists) == Without(Plan(a, packageExists), {EnsureBaseImage})
  {
    PlanDrops(a, a.(skipBase := true), packageExists, {EnsureBaseImage});
  }

  /**
   * `--skip-archive` drops the five archive steps; it also drops the final
   * package removal when no package directory existed beforehand.
   */
  lemma SkipArchiveDropsArchiveSteps(a: BuildEnv.CliArgs, packageExists: bool)
    ensures Plan(a.(skipArchive := true), packageExists)
         == Without(Plan(a, packageExists), if packageExists then ArchiveSteps else ArchiveSteps + {RemovePackage})
  {
    var drop := if packageExists then ArchiveSteps else ArchiveSteps + {RemovePackage};
    PlanDrops(a, a.(skipArchive := true), packageExists, drop);
  }

  /** How far the `try` block got: the steps started, and the one that raised. */
  datatype Progress = Progress(executed: seq<Step>, failed: Option<Step>)

  /** Run `plan` until a step in `raising` raises; the rest of the block is skipped. */
  function Run(plan: seq<Step>, raising: set<Step>): (r: Progress)
    ensures r.executed <= plan
    ensures r.failed.None? <==> forall i :: 0 <= i < |plan| ==> plan[i] !in raising
    ensures r.failed.None? ==> r.executed == plan
    ensures r.failed.Some? ==>
              && |r.executed| > 0
              && r.executed[|r.executed| - 1] == r.failed.value
              && r.failed.value in raising
              && forall i :: 0 <= i < |r.executed| - 1 ==> r.executed[i] !in raising
  {
    if plan == [] then Progress([], None)
    else if plan[0] in raising then Progress([plan[0]], Some(plan[0]))
    else
      var rest := Run(plan[1..], raising);
      assert forall i :: 1 <= i < |plan| ==> plan[i] == plan[1..][i - 1];
      Progress([plan[0]] + rest.executed, rest.failed)
  }

  /** Outcomes of the pre-flight probes. */
  datatype Preflight = Preflight(daemonReachable: bool, repoExists: bool, builderComposeExists: bool, appComposeExists: bool)

  /** `check_prerequisites`: every probe runs and reports; the result is their conjunction. */
  predicate PreflightOk(f: Preflight) {
    f.daemonReachable && f.repoExists && f.builderComposeExists && f.appComposeExists
  }

  /** What the outside world does with each step: the submodels' inputs and the plain steps that raise. */
  datatype World = World(
    source: Archive.SourceTree, git: Archive.GitOutcome, tarSucceeds: bool,
    store: BaseImage.Store,
    runtime: BinaryExtract.Runtime, binaryDir: map<string, BinaryExtract.File>,
    health: seq<HealthPoll.Observation>,
    failing: set<Step>)

  predicate ArchiveRaises(w: World) {
    Archive.ArchiveRepo(w.source, w.git, w.tarSucceeds).outcome.Raised?
  }

  predicate BaseImageRaises(w: World, rebuild: bool) {
    BaseImage.EnsureBaseImage(w.store, rebuild).error.Some?
  }

  predicate CopyBinaryRaises(w: World) {
    BinaryExtract.CopyBinary(w.runtime, w.binaryDir).error.Some?
  }

  /** Only a terminal container state raises; a timeout returns False and the build goes on. */
  predicate HealthRaises(w: World) {
    HealthPoll.Poll(w.health, HealthPoll.DefaultTimeout).result.Terminal?
  }

  /** Whether step `s` raises when reached: the submodels decide four steps, `failing` the rest. */
  predicate Raises(w: World, rebuild: bool, s: Step) {
    match s
    case ArchiveRepo => ArchiveRaises(w)
    case EnsureBaseImage => BaseImageRaises(w, rebuild)
    case CopyBinary => CopyBinaryRaises(w)
    case WaitHealthy => HealthRaises(w)
    case _ => s in w.failing
  }

  function Raising(w: World, rebuild: bool): set<Step> {
    set s | s in AllSteps && Raises(w, rebuild, s)
  }

  datatype Invocation = Invocation(args: BuildEnv.CliArgs, preflight: Preflight, packageExists: bool, world: World)

  datatype Outcome = Outcome(exitCode: int, progress: Progress, clientOpened: bool, clientClosed: bool)

  function BuildMain(inv: Invocation): (o: Outcome)
    ensures o.exitCode == 0 || o.exitCode == 1
    // `--check` only reports the pre-flight verdict.
    ensures inv.args.check ==>
              o.exitCode == (if PreflightOk(inv.preflight) then 0 else 1)
              && o.progress.executed == [] && !o.clientOpened
    // A failed pre-flight stops before any step and before a client exists.
    ensures !PreflightOk(inv.preflight) ==> o.exitCode == 1 && o.progress.executed == [] && !o.clientOpened
    // Otherwise the plan runs up to the first raising step, and the client is closed whatever happened.
    ensures !inv.args.check && PreflightOk(inv.preflight) ==>
              && o.clientOpened && o.clientClosed
              && o.progress == Run(Plan(inv.args, inv.packageExists), Raising(inv.world, inv.args.rebuildBase))
              && (o.exitCode == 0 <==> o.progress.failed.None?)
    ensures o.clientOpened ==> o.clientClosed
  {
    if inv.args.check then
      Outcome(if PreflightOk(inv.preflight) then 0 else 1, Progress([], None), false, false)
    else if !PreflightOk(inv.preflight) then Outcome(1, Progress([], None), false, false)
    else if !inv.preflight.repoExists then Outcome(1, Progress([], None), false, false)
    else
      var progress := Run(Plan(inv.args, inv.packageExists), Raising(inv.world, inv.args.rebuildBase));
      Outcome(if progress.failed.None? then 0 else 1, progress, true, true)
  }

  /** A plan step after the failing one never starts. */
  lemma {:induction false} NothingAfterFailure(plan: seq<Step>, raising: set<Step>, s: Step, t: Step)
    requires Ordered(plan) && s in plan && t in plan && Rank(s) < Rank(t) && s in raising
    ensures t !in Run(plan, raising).executed
  {
    var r := Run(plan, raising);
    var k :| 0 <= k < |plan| && plan[k] == s;
    assert r.failed.Some?;
  }

  /**
   * When the binary cannot be copied the builder stack is left running: its
   * stop is a later step of the same `try` block, not a `finally`.
   */
  lemma CopyFailureLeavesBuilderRunning(inv: Invocation)
    requires !inv.args.check && PreflightOk(inv.preflight)
    requires CopyBinaryRaises(inv.world)
    ensures StopBuilder !in BuildMain(inv).progress.executed
    ensures BuildMain(inv).exitCode == 1
    ensures BuildMain(inv).clientClosed
  {
    var plan := Plan(inv.args, inv.packageExists);
    var raising := Raising(inv.world, inv.args.rebuildBase);
    assert Planned(inv.args, inv.packageExists, CopyBinary);
    assert Planned(inv.args, inv.packageExists, StopBuilder);
    NothingAfterFailure(plan, raising, CopyBinary, StopBuilder);
  }

  /** A container that never becomes healthy within the budget still ends the build with status 0. */
  lemma HealthTimeoutStillSucceeds(inv: Invocation)
    requires !inv.args.check && PreflightOk(inv.preflight)
    requires HealthPoll.Poll(inv.world.health, HealthPoll.DefaultTimeout).result == HealthPoll.TimedOut
    requires !ArchiveRaises(inv.world) && !BaseImageRaises(inv.world, inv.args.rebuildBase)
    requires !CopyBinaryRaises(inv.world) && inv.world.failing == {}
    ensures BuildMain(inv).exitCode == 0
    ensures BuildMain(inv).progress.executed == Plan(inv.args, inv.packageExists)
  {
    var raising := Raising(inv.world, inv.args.rebuildBase);
    assert raising == {};
  }

  /** An exited or dead container fails the build after everything else ran. */
  lemma TerminalContainerFailsBuild(inv: Invocation)
    requires !inv.args.check && PreflightOk(inv.preflight) && !inv.args.skipDeploy
    requires HealthRaises(inv.world)
    ensures BuildMain(inv).exitCode == 1
  {
    var plan := Plan(inv.args, inv.packageExists);
    assert Planned(inv.args, inv.packageExists, WaitHealthy);
    var k :| 0 <= k < |plan| && plan[k] == WaitHealthy;
    assert plan[k] in Raising(inv.world, inv.args.rebuildBase);
  }
}
