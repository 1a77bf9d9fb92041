/**
 * The snapshot step `_archive_repo` (cloud-builder/build.py): fail when the
 * source tree is missing, export the committed tree with `git archive` when a
 * `.git` directory exists, and fall back to a filtered manual tar when there is
 * no `.git` or `git` exits with an error status.
 */
module Archive {
  import opened ArchiveFilter

  /** What `git archive` did: succeeded, exited non-zero (`CalledProcessError`), or raised anything else. */
  datatype GitOutcome = GitSucceeded | GitExitedNonZero | GitRaised

  /**
   * The source tree as the step sees it: whether it exists, whether it has a
   * `.git` directory, the paths `git archive HEAD` would export (each path as
   * its segments), and the listing of the tree on disk.
   */
  datatype SourceTree = SourceTree(present: bool, hasGitDir: bool, tracked: set<seq<string>>, listing: seq<Node>)

  datatype Strategy = GitArchive | ManualTar

  datatype ArchiveError =
    | SourceNotFound   // FileNotFoundError before anything is written
    | GitError         // a non-CalledProcessError from running git propagates
    | TarError         // writing the manual tar raised

  datatype ArchiveOutcome = Written(strategy: Strategy, entries: set<seq<string>>) | Raised(error: ArchiveError)

  /** The strategies attempted, in order, and what came of the step. */
  datatype ArchiveRun = ArchiveRun(attempts: seq<Strategy>, outcome: ArchiveOutcome)

  function ArchiveRepo(src: SourceTree, git: GitOutcome, tarSucceeds: bool): (run: ArchiveRun)
    // A missing source tree raises before any strategy runs.
    ensures !src.present ==> run.attempts == [] && run.outcome == Raised(SourceNotFound)
    // git is attempted exactly when the tree has a .git directory, and always first.
    ensures GitArchive in run.attempts <==> src.present && src.hasGitDir
    ensures GitArchive in run.attempts ==> run.attempts[0] == GitArchive
    // The manual tar runs exactly when there is no .git or git exited non-zero.
    ensures ManualTar in run.attempts <==> src.present && (!src.hasGitDir || git == GitExitedNonZero)
    ensures |run.attempts| <= 2
    // Only a non-CalledProcessError from git escapes without a fallback.
    ensures run.outcome == Raised(GitError) <==> src.present && src.hasGitDir && git == GitRaised
    // The git export holds exactly the tracked files; the manual tar the root and exactly the tree's kept paths.
    ensures run.outcome.Written? && run.outcome.strategy == GitArchive ==> run.outcome.entries == src.tracked
    ensures run.outcome.Written? && run.outcome.strategy == ManualTar ==>
              [] in run.outcome.entries
              && run.outcome.entries <= {[]} + TreePaths([], src.listing)
              && forall p :: p in TreePaths([], src.listing) ==>
                   (p in run.outcome.entries <==> PathKept(p, ExcludePatterns))
    ensures run.outcome.Written? ==> run.attempts[|run.attempts| - 1] == run.outcome.strategy
  {
    if !src.present then ArchiveRun([], Raised(SourceNotFound))
    else if src.hasGitDir && git == GitSucceeded then ArchiveRun([GitArchive], Written(GitArchive, src.tracked))
    else if src.hasGitDir && git == GitRaised then ArchiveRun([GitArchive], Raised(GitError))
    else
      assert src.hasGitDir ==> git == GitExitedNonZero;
      var tried := if src.hasGitDir then [GitArchive, ManualTar] else [ManualTar];
      assert ManualTar in tried;
      if tarSucceeds then ArchiveRun(tried, Written(ManualTar, TarAddTree(src.listing, ExcludePatterns)))
      else ArchiveRun(tried, Raised(TarError))
  }
}
