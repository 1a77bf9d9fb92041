/**
 * `_copy_frankenphp_binary` (cloud-builder/build.py): find the builder
 * container, pull the binary out of it as a tar stream, unpack it next to the
 * target, rename it when the unpacked entry is there, and force mode 0755.
 * The target directory is a map from file name to file.
 */
module BinaryExtract {
  import opened Wrappers
  import opened Text

  /** The file the builder produces inside its container. */
  const ContainerBinaryPath: string := "/go/src/app/dist/frankenphp-linux-x86_64"
  /** The name the tar stream's single entry unpacks under. */
  const ExtractedName: string := "frankenphp-linux-x86_64"
  /** The installed binary's name in `orangescrum-cloud/orangescrum-app/`. */
  const BinaryName: string := "osv4-prod"
  /** rwxr-xr-x */
  const ExecutableMode: int := 0x1ED

  datatype File = File(mode: int, data: seq<bv8>)

  datatype ExtractStep = QueryContainerId | GetContainer | FetchArchive | Unpack | Rename | Chmod

  datatype ExtractError =
    | PsFailed            // `docker compose ps -q` exited non-zero
    | EmptyContainerId    // RuntimeError: no builder container
    | ContainerNotFound   // the runtime does not know the id
    | ArchiveFetchFailed  // `get_archive` raised
    | BinaryMissing       // `chmod` on a path that does not exist

  /**
   * What the runtime answers: the raw output of `docker compose ps -q` (None when
   * the command fails), whether the id names a container, and the entries of the
   * tar stream `get_archive` returns (None when it raises).
   */
  datatype Runtime = Runtime(psOutput: Option<string>, containerKnown: bool, archive: Option<map<string, File>>)

  datatype Extraction = Extraction(steps: seq<ExtractStep>, dir: map<string, File>, error: Option<ExtractError>)

  /** The unpacked entry moved onto the binary's name (a POSIX rename replaces an existing target). */
  function RenameEntry(dir: map<string, File>): map<string, File>
    requires ExtractedName in dir
  {
    (dir - {ExtractedName})[BinaryName := dir[ExtractedName]]
  }

  /** Unpack, rename when the entry is there, and chmod: the part of the step after the stream arrived. */
  function Install(dir: map<string, File>, entries: map<string, File>): (x: Extraction)
    ensures x.steps == if ExtractedName in dir + entries then [Unpack, Rename, Chmod] else [Unpack, Chmod]
    ensures x.error == None || x.error == Some(BinaryMissing)
    ensures x.error == None <==> BinaryName in dir + entries || ExtractedName in dir + entries
    ensures x.error == None ==>
              BinaryName in x.dir && x.dir[BinaryName].mode == ExecutableMode && ExtractedName !in x.dir
    ensures x.error == None && ExtractedName in entries ==> x.dir[BinaryName].data == entries[ExtractedName].data
    ensures forall n :: n in dir + entries && n != BinaryName && n != ExtractedName ==>
              n in x.dir && x.dir[n] == (dir + entries)[n]
  {
    var unpacked := dir + entries;
    var renamed := if ExtractedName in unpacked then RenameEntry(unpacked) else unpacked;
    var steps := if ExtractedName in unpacked then [Unpack, Rename, Chmod] else [Unpack, Chmod];
    if BinaryName in renamed then
      Extraction(steps, renamed[BinaryName := renamed[BinaryName].(mode := ExecutableMode)], None)
    else Extraction(steps, renamed, Some(BinaryMissing))
  }

  function CopyBinary(rt: Runtime, dir: map<string, File>): (x: Extraction)
    // The lookup always runs first.
    ensures |x.steps| > 0 && x.steps[0] == QueryContainerId
    // An empty id (after stripping) raises before any archive is fetched and touches nothing.
    ensures rt.psOutput.Some? && Strip(rt.psOutput.value) == "" ==>
              x.error == Some(EmptyContainerId) && FetchArchive !in x.steps && x.dir == dir
    ensures FetchArchive in x.steps <==> rt.psOutput.Some? && Strip(rt.psOutput.value) != "" && rt.containerKnown
    ensures Unpack in x.steps <==> FetchArchive in x.steps && rt.archive.Some?
    ensures x.error == None ==> Unpack in x.steps
    // The unpacked entry is renamed exactly when it exists after unpacking.
    ensures Rename in x.steps <==> Unpack in x.steps && ExtractedName in dir + rt.archive.value
    // Success leaves an executable binary, mode 0755 whatever the archive said.
    ensures x.error == None ==>
              && Chmod in x.steps
              && BinaryName in x.dir && x.dir[BinaryName].mode == ExecutableMode
              && ExtractedName !in x.dir
    // When the container delivered the entry, the installed binary has its bytes.
    ensures x.error == None && ExtractedName in rt.archive.value ==>
              x.dir[BinaryName].data == rt.archive.value[ExtractedName].data
    // Files other than the two names involved end up as the archive or the old directory had them.
    ensures Unpack in x.steps ==>
              forall n :: n in dir + rt.archive.value && n != BinaryName && n != ExtractedName ==>
                n in x.dir && x.dir[n] == (dir + rt.archive.value)[n]
  {
    match rt.psOutput
    case None => Extraction([QueryContainerId], dir, Some(PsFailed))
    case Some(out) =>
      if Strip(out) == "" then Extraction([QueryContainerId], dir, Some(EmptyContainerId))
      else if !rt.containerKnown then Extraction([QueryContainerId, GetContainer], dir, Some(ContainerNotFound))
      else match rt.archive
        case None => Extraction([QueryContainerId, GetContainer, FetchArchive], dir, Some(ArchiveFetchFailed))
        case Some(entries) =>
          var installed := Install(dir, entries);
          installed.(steps := [QueryContainerId, GetContainer, FetchArchive] + installed.steps)
  }

  /**
   * When the stream lacks the expected entry but an older binary is already in
   * place, the step succeeds and keeps the old bytes.
   */
  lemma StaleBinaryKept(rt: Runtime, dir: map<string, File>)
    requires rt.psOutput.Some? && Strip(rt.psOutput.value) != "" && rt.containerKnown
    requires rt.archive.Some? && ExtractedName !in rt.archive.value && BinaryName !in rt.archive.value
    requires ExtractedName !in dir && BinaryName in dir
    ensures var x := CopyBinary(rt, dir);
            x.error == None && Rename !in x.steps && x.dir[BinaryName].data == dir[BinaryName].data
  {
  }
}
