/**
 * The multi-chain deployment driver: parse the command line, work out the
 * target chains, rotate the deployment log and record the mode in it, then
 * run the deployer once per chain, archiving its broadcast record when asked.
 *
 * The deployer is an input `deployer` (see Deployer). The clock (`now`),
 * the configuration file (`config`) and the package version (`version`)
 * are inputs too.
 */
module Driver {
  import opened Wrappers
  import opened Cli
  import opened Registry
  import opened Targets
  import opened Paths
  import opened Output
  import opened FileSys

  /** One run of the deployer: its exit status and output, or a process that could not be started. */
  datatype Exec = Exec(success: bool, stdout: string, stderr: string) | NotStarted

  /**
   * The deployer as the driver sees it. `exec` tells whether the `n`-th call
   * with a given argument vector could be started and, if so, its exit
   * status and output; `writes` gives the file system that call leaves
   * behind (the broadcast record it saves, the log entries it appends, or
   * anything else). A call that could not be started writes nothing.
   */
  datatype Deployer = Deployer(exec: (nat, seq<string>) -> Exec, writes: (nat, seq<string>, Disk) -> Disk)

  /** The conditions that end the driver early (each is a panic of the driver). */
  datatype Fatal =
    | BadArguments(reason: ParseError)
    | LogNotWritable(cause: IoError)
    | DeployerNotStarted(chain: string)
    | VersionUnreadable
    | ArchiveDirNotCreated(cause: IoError)
    | ArtifactNotMoved(cause: IoError)

  /** The file system after a step, and the fatal condition it ended in, if any. */
  datatype Effect = Effect(disk: Disk, fatal: Option<Fatal>)

  /** A whole run: the file system it leaves, the deployer calls it made, and how it ended. */
  datatype Outcome = Outcome(disk: Disk, invocations: seq<seq<string>>, fatal: Option<Fatal>)

  const BroadcastedMarker := " # This deployment is broadcasted\n\n"
  const SimulationMarker := " # This deployment is a simulation\n\n"

  /** The line that records in the log whether the run broadcasts or only simulates. */
  function Marker(isBroadcast: bool): (m: string)
    ensures m == BroadcastedMarker <==> isBroadcast
    ensures m == SimulationMarker <==> !isBroadcast
  {
    if isBroadcast then BroadcastedMarker else SimulationMarker
  }

  /** A run broadcasts when `--broadcast` set its argument text. */
  predicate IsBroadcast(o: Options) {
    o.broadcastDeployment != ""
  }

  /** The deployer's arguments for one chain. */
  function Argv(o: Options, chain: string): (argv: seq<string>)
    ensures |argv| == 6 && argv[0] == "script" && argv[2] == "--rpc-url" && argv[3] == chain
    ensures argv[1] == ScriptDir + o.scriptName
    ensures argv[4] == o.broadcastDeployment && (argv[4] != "" <==> IsBroadcast(o))
    ensures argv[5] == o.gasPrice
  {
    var argv := ForgeArgs(o.scriptName, chain, o.broadcastDeployment, o.gasPrice);
    assert argv[1] == argv[1][..|ScriptDir|] + argv[1][|ScriptDir|..];
    argv
  }

  // ---------------------------------------------------------------------
  // The steps, as functions of the file-system snapshot
  // ---------------------------------------------------------------------

  /**
   * Log rotation: an existing log is renamed to its timestamped path,
   * otherwise the log's directory is created; a failure of either is ignored.
   */
  function RotateLog(d: Disk, isDeterministic: bool, now: nat): Disk {
    var log := LogPath(isDeterministic);
    if PathExists(d, log) then After(d, RenameFile(d, log, RotatedLogPath(isDeterministic, now)))
    else After(d, CreateDirAll(d, Parent(log)))
  }

  /** Appending the mode marker to the log, creating the log when missing. */
  function RecordMarker(d: Disk, isDeterministic: bool, isBroadcast: bool): Result<Disk, IoError> {
    AppendCreate(d, LogPath(isDeterministic), Marker(isBroadcast))
  }

  /** The broadcast record named by the deployer's output. */
  function ArtifactSource(scriptName: string, output: string, isBroadcast: bool): string {
    SourcePath(scriptName, ChainId(output, scriptName), isBroadcast)
  }

  /**
   * Archiving a broadcast record: read the version (fatal when it cannot be
   * read), create the archive directory when nothing is at its path (fatal
   * on failure), then rename the record into it (fatal on failure).
   */
  function MoveArtifact(d: Disk, scriptName: string, chain: string, output: string, isBroadcast: bool,
                        version: Option<string>): Effect
  {
    var src := ArtifactSource(scriptName, output, isBroadcast);
    if version.None? then Effect(d, Some(VersionUnreadable))
    else
      var dst := ArchivePath(version.value, chain);
      var made := if PathExists(d, Parent(dst)) then Ok(d) else CreateDirAll(d, Parent(dst));
      if made.Err? then Effect(d, Some(ArchiveDirNotCreated(made.error)))
      else match RenameFile(made.value, src, dst)
        case Err(e) => Effect(made.value, Some(ArtifactNotMoved(e)))
        case Ok(moved) => Effect(moved, None)
  }

  /**
   * The per-chain loop from the `n`-th call on: run the deployer for each
   * target in turn, whatever its exit status, then, on the file system the
   * deployer left, archive the record when `--cp-bf` was given; stop at the
   * first fatal condition.
   */
  function RunChains(d: Disk, o: Options, targets: seq<string>, version: Option<string>,
                     deployer: Deployer, n: nat): Outcome
    decreases |targets|
  {
    if targets == [] then Outcome(d, [], None)
    else
      var argv := Argv(o, targets[0]);
      match deployer.exec(n, argv)
      case NotStarted => Outcome(d, [argv], Some(DeployerNotStarted(targets[0])))
      case Exec(_, stdout, _) =>
        var written := deployer.writes(n, argv, d);
        var e := if o.cpBroadcastedFile
                 then MoveArtifact(written, o.scriptName, targets[0], stdout, IsBroadcast(o), version)
                 else Effect(written, None);
        if e.fatal.Some? then Outcome(e.disk, [argv], e.fatal)
        else
          var rest := RunChains(e.disk, o, targets[1..], version, deployer, n + 1);
          Outcome(rest.disk, [argv] + rest.invocations, rest.fatal)
  }

  /** The whole run of the driver. */
  function Deployment(d: Disk, args: seq<string>, config: ConfigSource, now: nat, version: Option<string>,
                      deployer: Deployer): Outcome
  {
    match Parse(args)
    case Err(e) => Outcome(d, [], Some(BadArguments(e)))
    case Ok(o) =>
      var targets := Resolve(o.onAllChains, o.providedChains, AllChains(config));
      var rotated := RotateLog(d, o.isDeterministic, now);
      match RecordMarker(rotated, o.isDeterministic, IsBroadcast(o))
      case Err(e) => Outcome(rotated, [], Some(LogNotWritable(e)))
      case Ok(marked) => RunChains(marked, o, targets, version, deployer, 0)
  }

  // ---------------------------------------------------------------------
  // The driver, step by step against the mutable file system
  // ---------------------------------------------------------------------

  /** Rotates the log, or creates its directory, ignoring the result. */
  method RotateLogFile(fs: FileSystem, deploymentPath: string, isDeterministic: bool, now: nat)
    requires deploymentPath == LogPath(isDeterministic)
    modifies fs
    ensures fs.Snapshot() == RotateLog(old(fs.Snapshot()), isDeterministic, now)
  {
    var logExists := fs.Exists(deploymentPath);
    if logExists {
      var rotatedPath := GetDeploymentPath(isDeterministic, true, now);
      var ignored := fs.Rename(deploymentPath, rotatedPath);
    } else {
      var ignored := fs.CreateDirs(Parent(deploymentPath));
    }
  }

  /** `append_type_of_deployment`: appends the mode marker to the log. */
  method AppendTypeOfDeployment(fs: FileSystem, deploymentPath: string, isBroadcast: bool)
    returns (err: Option<IoError>)
    modifies fs
    ensures fs.Snapshot() == After(old(fs.Snapshot()), AppendCreate(old(fs.Snapshot()), deploymentPath, Marker(isBroadcast)))
    ensures err == Failure(AppendCreate(old(fs.Snapshot()), deploymentPath, Marker(isBroadcast)))
  {
    var message := if isBroadcast then BroadcastedMarker else SimulationMarker;
    err := fs.Append(deploymentPath, message);
  }

  /** `move_broadcast_file`: archives the record the deployer left for one chain. */
  method MoveBroadcastFile(fs: FileSystem, scriptName: string, chain: string, output: string,
                           isBroadcast: bool, version: Option<string>)
    returns (fatal: Option<Fatal>)
    modifies fs
    ensures Effect(fs.Snapshot(), fatal) == MoveArtifact(old(fs.Snapshot()), scriptName, chain, output, isBroadcast, version)
  {
    var chainId := ChainId(output, scriptName);
    var broadcastFilePath := SourcePath(scriptName, chainId, isBroadcast);
    if version.None? {
      return Some(VersionUnreadable);
    }
    var destPath := ArchivePath(version.value, chain);
    var parent := Parent(destPath);
    var parentExists := fs.Exists(parent);
    if !parentExists {
      var err := fs.CreateDirs(parent);
      if err.Some? {
        return Some(ArchiveDirNotCreated(err.value));
      }
    }
    var err := fs.Rename(broadcastFilePath, destPath);
    if err.Some? {
      return Some(ArtifactNotMoved(err.value));
    }
    fatal := None;
  }

  /** Puts earlier calls in front of the outcome of the rest of the loop. */
  function Prepend(invocations: seq<seq<string>>, r: Outcome): Outcome {
    Outcome(r.disk, invocations + r.invocations, r.fatal)
  }

  /** What the step for the first target leaves: a disk and, possibly, a fatal condition. */
  function StepEffect(d: Disk, o: Options, chain: string, version: Option<string>, exec: Exec): Effect
    requires exec.Exec?
  {
    if o.cpBroadcastedFile then MoveArtifact(d, o.scriptName, chain, exec.stdout, IsBroadcast(o), version)
    else Effect(d, None)
  }

  /**
   * One turn of the per-chain loop: the outcome of the loop from target `i`
   * on, after the calls already made, in terms of what that target's turn
   * left (the file system `after` and the fatal condition, if any).
   */
  lemma LoopStep(d: Disk, after: Disk, fatal: Option<Fatal>, o: Options, targets: seq<string>, i: nat,
                 version: Option<string>, deployer: Deployer, before: seq<seq<string>>)
    requires i < |targets|
    requires var argv := Argv(o, targets[i]); var exec := deployer.exec(i, argv);
      && (exec.NotStarted? ==> after == d && fatal == Some(DeployerNotStarted(targets[i])))
      && (exec.Exec? ==> Effect(after, fatal) == StepEffect(deployer.writes(i, argv, d), o, targets[i], version, exec))
    ensures var argv := Argv(o, targets[i]);
      var whole := Prepend(before, RunChains(d, o, targets[i..], version, deployer, i));
      && (fatal.Some? ==> whole == Outcome(after, before + [argv], fatal))
      && (fatal.None? ==> whole == Prepend(before + [argv], RunChains(after, o, targets[i + 1..], version, deployer, i + 1)))
  {
    assert targets[i..][0] == targets[i] && targets[i..][1..] == targets[i + 1..];
    var argv := Argv(o, targets[i]);
    var exec := deployer.exec(i, argv);
    if exec.Exec? && fatal.None? {
      var rest := RunChains(after, o, targets[i + 1..], version, deployer, i + 1);
      assert before + ([argv] + rest.invocations) == (before + [argv]) + rest.invocations;
    }
  }

  /** The deployment to one chain whose deployer run has finished: archive its record when asked. */
  method FinishChain(fs: FileSystem, o: Options, chain: string, version: Option<string>, output: Exec)
    returns (fatal: Option<Fatal>)
    requires output.Exec?
    modifies fs
    ensures Effect(fs.Snapshot(), fatal) == StepEffect(old(fs.Snapshot()), o, chain, version, output)
  {
    fatal := None;
    if o.cpBroadcastedFile {
      fatal := MoveBroadcastFile(fs, o.scriptName, chain, output.stdout, IsBroadcast(o), version);
    }
  }

  /**
   * One turn of the per-chain loop: run the deployer for target `i`, take
   * the file system it left, and archive its record when asked.
   */
  method DeployToChain(fs: FileSystem, o: Options, targets: seq<string>, i: nat, version: Option<string>,
                       deployer: Deployer)
    returns (commandArgs: seq<string>, fatal: Option<Fatal>)
    requires i < |targets|
    modifies fs
    ensures commandArgs == Argv(o, targets[i])
    ensures var exec := deployer.exec(i, commandArgs);
      && (exec.NotStarted? ==> fs.Snapshot() == old(fs.Snapshot()) && fatal == Some(DeployerNotStarted(targets[i])))
      && (exec.Exec? ==> Effect(fs.Snapshot(), fatal)
                         == StepEffect(deployer.writes(i, commandArgs, old(fs.Snapshot())), o, targets[i], version, exec))
  {
    var chain := targets[i];
    commandArgs := Argv(o, chain);
    var output := deployer.exec(i, commandArgs);
    if output.NotStarted? {
      return commandArgs, Some(DeployerNotStarted(chain));
    }
    fs.Become(deployer.writes(i, commandArgs, fs.Snapshot()));
    fatal := FinishChain(fs, o, chain, version, output);
  }

  /** The per-chain loop. */
  method DeployToChains(fs: FileSystem, o: Options, targets: seq<string>, version: Option<string>,
                        deployer: Deployer)
    returns (invocations: seq<seq<string>>, fatal: Option<Fatal>)
    modifies fs
    ensures Outcome(fs.Snapshot(), invocations, fatal) == RunChains(old(fs.Snapshot()), o, targets, version, deployer, 0)
  {
    ghost var goal := RunChains(fs.Snapshot(), o, targets, version, deployer, 0);
    invocations := [];
    fatal := None;
    var i := 0;
    while i < |targets|
      invariant 0 <= i <= |targets| && fatal.None?
      invariant Prepend(invocations, RunChains(fs.Snapshot(), o, targets[i..], version, deployer, i)) == goal
      decreases |targets| - i
    {
      ghost var before := fs.Snapshot();
      var commandArgs;
      commandArgs, fatal := DeployToChain(fs, o, targets, i, version, deployer);
      LoopStep(before, fs.Snapshot(), fatal, o, targets, i, version, deployer, invocations);
      invocations := invocations + [commandArgs];
      if fatal.Some? {
        return;
      }
      i := i + 1;
    }
    assert targets[i..] == [];
    assert invocations + [] == invocations;
  }

  /** Rotates the log of the script variant, then records the mode in a fresh one. */
  method PrepareLog(fs: FileSystem, o: Options, now: nat) returns (err: Option<IoError>)
    modifies fs
    ensures var rotated := RotateLog(old(fs.Snapshot()), o.isDeterministic, now);
      var marked := RecordMarker(rotated, o.isDeterministic, IsBroadcast(o));
      && fs.Snapshot() == After(rotated, marked)
      && err == Failure(marked)
  {
    var deploymentPath := GetDeploymentPath(o.isDeterministic, false, now);
    RotateLogFile(fs, deploymentPath, o.isDeterministic, now);
    err := AppendTypeOfDeployment(fs, deploymentPath, IsBroadcast(o));
  }

  /** The driver's `main`. */
  method Deploy(fs: FileSystem, args: seq<string>, config: ConfigSource, now: nat, version: Option<string>,
                deployer: Deployer)
    returns (invocations: seq<seq<string>>, fatal: Option<Fatal>)
    modifies fs
    ensures Outcome(fs.Snapshot(), invocations, fatal) == Deployment(old(fs.Snapshot()), args, config, now, version, deployer)
  {
    var parsed := ParseArgs(args);
    if parsed.Err? {
      return [], Some(BadArguments(parsed.error));
    }
    var o := parsed.value;
    var chains := GetAllChains(config);
    var targets := ResolveTargets(o.onAllChains, o.providedChains, chains);
    var err := PrepareLog(fs, o, now);
    if err.Some? {
      return [], Some(LogNotWritable(err.value));
    }
    invocations, fatal := DeployToChains(fs, o, targets, version, deployer);
  }

  // ---------------------------------------------------------------------
  // Properties of a run
  // ---------------------------------------------------------------------

  /**
   * Rotation followed by the marker. An existing log moves unchanged to its
   * timestamped path and the log then holds the marker alone; when a
   * directory blocks the rename, the marker is appended to the old log;
   * a missing log is created holding the marker. No other file changes.
   */
  lemma LogRotationAndMarker(d: Disk, isDeterministic: bool, isBroadcast: bool, now: nat)
    requires Valid(d)
    ensures var log := LogPath(isDeterministic); var rotated := RotatedLogPath(isDeterministic, now);
      var r := RecordMarker(RotateLog(d, isDeterministic, now), isDeterministic, isBroadcast);
      && (log in d.files && rotated !in d.dirs ==>
            r.Ok? && r.value.files == d.files[rotated := d.files[log]][log := Marker(isBroadcast)])
      && (log in d.files && rotated in d.dirs ==>
            r.Ok? && r.value.files == d.files[log := d.files[log] + Marker(isBroadcast)])
      && (!PathExists(d, log) && (forall a :: a in Ancestors(DeploymentsDir) ==> a !in d.files) ==>
            r.Ok? && r.value.files == d.files[log := Marker(isBroadcast)])
      && (log in d.dirs ==> r.Err?)
  {
    var log := LogPath(isDeterministic);
    if log in d.files {
      if RotatedLogPath(isDeterministic, now) !in d.dirs {
        ExistingLogRotated(d, isDeterministic, isBroadcast, now);
      } else {
        AppendCreateEffect(d, log, Marker(isBroadcast));
      }
    } else if !PathExists(d, log) && (forall a :: a in Ancestors(DeploymentsDir) ==> a !in d.files) {
      MissingLogCreated(d, isDeterministic, isBroadcast, now);
    }
  }

  /** The first case of LogRotationAndMarker: the log is moved aside, then started afresh. */
  lemma ExistingLogRotated(d: Disk, isDeterministic: bool, isBroadcast: bool, now: nat)
    requires Valid(d)
    requires LogPath(isDeterministic) in d.files && RotatedLogPath(isDeterministic, now) !in d.dirs
    ensures var log := LogPath(isDeterministic); var rotated := RotatedLogPath(isDeterministic, now);
      var r := RecordMarker(RotateLog(d, isDeterministic, now), isDeterministic, isBroadcast);
      r.Ok? && r.value.files == d.files[rotated := d.files[log]][log := Marker(isBroadcast)]
  {
    var log := LogPath(isDeterministic);
    var rotated := RotatedLogPath(isDeterministic, now);
    var m := Marker(isBroadcast);
    LogPathsShareDirectory(isDeterministic, now);
    RotatedLogPathsDistinct(isDeterministic, now, now);
    RenameFileEffect(d, log, rotated);
    var moved := RenameFile(d, log, rotated).value;
    AppendCreateEffect(moved, log, m);
    assert moved.files[log := m] == d.files[rotated := d.files[log]][log := m];
  }

  /** The third case of LogRotationAndMarker: the log's directory is created, then the log. */
  lemma MissingLogCreated(d: Disk, isDeterministic: bool, isBroadcast: bool, now: nat)
    requires !PathExists(d, LogPath(isDeterministic))
    requires forall a :: a in Ancestors(DeploymentsDir) ==> a !in d.files
    ensures var r := RecordMarker(RotateLog(d, isDeterministic, now), isDeterministic, isBroadcast);
      r.Ok? && r.value.files == d.files[LogPath(isDeterministic) := Marker(isBroadcast)]
  {
    var log := LogPath(isDeterministic);
    LogPathsShareDirectory(isDeterministic, now);
    CreateDirAllEffect(d, DeploymentsDir);
    AncestorsNoLonger(DeploymentsDir);
    var made := CreateDirAll(d, DeploymentsDir).value;
    assert RotateLog(d, isDeterministic, now) == made;
    assert made.files == d.files && DeploymentsDir in made.dirs;
    assert log !in made.dirs;
    AppendCreateEffect(made, log, Marker(isBroadcast));
  }

  /** The archive step only touches the record it moves and the archive file. */
  lemma MoveArtifactFrame(d: Disk, scriptName: string, chain: string, output: string, isBroadcast: bool,
                          version: Option<string>)
    ensures version.None? ==> MoveArtifact(d, scriptName, chain, output, isBroadcast, version)
                              == Effect(d, Some(VersionUnreadable))
    ensures version.Some? ==>
      var src := ArtifactSource(scriptName, output, isBroadcast); var dst := ArchivePath(version.value, chain);
      MoveArtifact(d, scriptName, chain, output, isBroadcast, version).disk.files - {src, dst}
      == d.files - {src, dst}
  {
    if version.Some? {
      var src := ArtifactSource(scriptName, output, isBroadcast);
      var dst := ArchivePath(version.value, chain);
      var made := if PathExists(d, Parent(dst)) then Ok(d) else CreateDirAll(d, Parent(dst));
      CreateDirAllEffect(d, Parent(dst));
      if made.Ok? {
        RenameFileEffect(made.value, src, dst);
      }
    }
  }

  /**
   * Archiving a record: on success the record is gone and the archive file
   * holds its former content, and no other file changes; a missing record
   * is fatal; a fatal step leaves every file as it was (directories may have
   * been created). The step succeeds when the record exists, the archive
   * directory exists and the archive path is not a directory.
   */
  lemma MoveArtifactOutcome(d: Disk, scriptName: string, chain: string, output: string, isBroadcast: bool,
                            version: string)
    ensures var src := ArtifactSource(scriptName, output, isBroadcast); var dst := ArchivePath(version, chain);
      var e := MoveArtifact(d, scriptName, chain, output, isBroadcast, Some(version));
      && (e.fatal.None? ==>
            && src in d.files && dst in e.disk.files && e.disk.files[dst] == d.files[src]
            && src !in e.disk.files
            && e.disk.files - {src, dst} == d.files - {src, dst})
      && (src !in d.files ==> e.fatal == Some(ArtifactNotMoved(NotFound)) || e.fatal.value.ArchiveDirNotCreated?)
      && (e.fatal.Some? ==> e.disk.files == d.files)
      && (src in d.files && Parent(dst) in d.dirs && dst !in d.dirs ==> e.fatal.None?)
  {
    var src := ArtifactSource(scriptName, output, isBroadcast);
    var dst := ArchivePath(version, chain);
    PathFamiliesDisjoint(false, 0, scriptName, ChainId(output, scriptName), isBroadcast, version, chain);
    var made := if PathExists(d, Parent(dst)) then Ok(d) else CreateDirAll(d, Parent(dst));
    CreateDirAllEffect(d, Parent(dst));
    if made.Ok? {
      RenameFileEffect(made.value, src, dst);
    }
  }

  /**
   * Archiving succeeds exactly when the record exists, the archive path is
   * not a directory, and the archive directory exists or can be created (no
   * ancestor of it is a file). On success the archive directory exists, and
   * the only directories added are the ones `create_dir_all` made because
   * nothing was at the archive directory's path.
   */
  lemma MoveArtifactSucceeds(d: Disk, scriptName: string, chain: string, output: string, isBroadcast: bool,
                             version: string)
    ensures var src := ArtifactSource(scriptName, output, isBroadcast); var dst := ArchivePath(version, chain);
      var dir := Parent(dst); var e := MoveArtifact(d, scriptName, chain, output, isBroadcast, Some(version));
      && (e.fatal.None? <==> src in d.files && dst !in d.dirs
                             && (dir in d.dirs || forall a :: a in Ancestors(dir) ==> a !in d.files))
      && (e.fatal.None? ==>
            && dir in e.disk.dirs
            && e.disk.dirs == d.dirs + (if PathExists(d, dir) then {} else Ancestors(dir)))
  {
    var src := ArtifactSource(scriptName, output, isBroadcast);
    var dst := ArchivePath(version, chain);
    assert dst[2] == '/';
    ParentNonEmpty(dst, 2);
    CreateThenRename(d, src, dst);
  }

  /** The directory creation and the rename of the archive step, for any record and archive paths. */
  lemma CreateThenRename(d: Disk, src: string, dst: string)
    requires 0 < |Parent(dst)| < |dst|
    ensures var dir := Parent(dst);
      var made := if PathExists(d, dir) then Ok(d) else CreateDirAll(d, dir);
      var moved := if made.Ok? then RenameFile(made.value, src, dst) else made;
      && (moved.Ok? <==> src in d.files && dst !in d.dirs
                         && (dir in d.dirs || forall a :: a in Ancestors(dir) ==> a !in d.files))
      && (moved.Ok? ==> dir in moved.value.dirs
                        && moved.value.dirs == d.dirs + (if PathExists(d, dir) then {} else Ancestors(dir)))
  {
    var dir := Parent(dst);
    DirInAncestors(dir);
    AncestorsNoLonger(dir);
    CreateDirAllEffect(d, dir);
    var made := if PathExists(d, dir) then Ok(d) else CreateDirAll(d, dir);
    if made.Ok? {
      assert dst in made.value.dirs <==> dst in d.dirs;
      RenameFileEffect(made.value, src, dst);
    }
  }

  /** The file at `path` is the same, or equally absent, in both snapshots. */
  predicate Untouched(before: Disk, after: Disk, path: string) {
    && (path in before.files <==> path in after.files)
    && (path in before.files ==> after.files[path] == before.files[path])
  }

  /** Archiving never touches a log. */
  lemma MoveArtifactKeepsLogs(d: Disk, scriptName: string, chain: string, output: string, isBroadcast: bool,
                              version: Option<string>, isDeterministic: bool, now: nat)
    ensures var e := MoveArtifact(d, scriptName, chain, output, isBroadcast, version);
      && Untouched(d, e.disk, LogPath(isDeterministic))
      && Untouched(d, e.disk, RotatedLogPath(isDeterministic, now))
  {
    MoveArtifactFrame(d, scriptName, chain, output, isBroadcast, version);
    if version.Some? {
      var src := ArtifactSource(scriptName, output, isBroadcast);
      var dst := ArchivePath(version.value, chain);
      var e := MoveArtifact(d, scriptName, chain, output, isBroadcast, version);
      PathFamiliesDisjoint(isDeterministic, now, scriptName, ChainId(output, scriptName), isBroadcast,
                           version.value, chain);
      UntouchedOutside(d, e.disk, src, dst, LogPath(isDeterministic));
      UntouchedOutside(d, e.disk, src, dst, RotatedLogPath(isDeterministic, now));
    }
  }

  /** A step that changes at most the files at `src` and `dst` leaves any other file untouched. */
  lemma UntouchedOutside(before: Disk, after: Disk, src: string, dst: string, path: string)
    requires after.files - {src, dst} == before.files - {src, dst}
    requires path != src && path != dst
    ensures Untouched(before, after, path)
  {
    assert path in after.files - {src, dst} <==> path in before.files - {src, dst};
    if path in before.files {
      assert (after.files - {src, dst})[path] == (before.files - {src, dst})[path];
    }
  }

  /** The file at `path`, when present before, is still there after and begins with its former content. */
  predicate Extends(before: Disk, after: Disk, path: string) {
    path in before.files ==> path in after.files && before.files[path] <= after.files[path]
  }

  /** No call of the deployer changes the file at `path`. */
  ghost predicate LeavesAlone(deployer: Deployer, path: string) {
    forall n: nat, argv: seq<string>, d: Disk :: Untouched(d, deployer.writes(n, argv, d), path)
  }

  /** The calls of the deployer at most append to the file at `path`. */
  ghost predicate AppendsOnlyTo(deployer: Deployer, path: string) {
    forall n: nat, argv: seq<string>, d: Disk :: Extends(d, deployer.writes(n, argv, d), path)
  }

  /** The calls of the deployer keep a valid file system valid. */
  ghost predicate KeepsValid(deployer: Deployer) {
    forall n: nat, argv: seq<string>, d: Disk :: Valid(d) ==> Valid(deployer.writes(n, argv, d))
  }

  /**
   * The file system that the deployer's calls for `targets`, from the `n`-th
   * on, leave one after the other when the driver itself writes nothing.
   */
  function DeployerWrites(d: Disk, o: Options, targets: seq<string>, deployer: Deployer, n: nat): Disk
    decreases |targets|
  {
    if targets == [] then d
    else DeployerWrites(deployer.writes(n, Argv(o, targets[0]), d), o, targets[1..], deployer, n + 1)
  }

  /**
   * The driver's own steps in the per-chain loop never touch the log it
   * writes to, nor the rotated one: such a file changes only when the
   * deployer changes it.
   */
  lemma {:induction false} RunChainsKeepsLogs(d: Disk, o: Options, targets: seq<string>, version: Option<string>,
                                              deployer: Deployer, n: nat, isDeterministic: bool, now: nat,
                                              path: string)
    requires path == LogPath(isDeterministic) || path == RotatedLogPath(isDeterministic, now)
    requires LeavesAlone(deployer, path)
    ensures Untouched(d, RunChains(d, o, targets, version, deployer, n).disk, path)
    decreases |targets|
  {
    if targets != [] {
      var argv := Argv(o, targets[0]);
      var exec := deployer.exec(n, argv);
      if exec.Exec? {
        var written := deployer.writes(n, argv, d);
        assert Untouched(d, written, path);
        var e := StepEffect(written, o, targets[0], version, exec);
        if o.cpBroadcastedFile {
          MoveArtifactKeepsLogs(written, o.scriptName, targets[0], exec.stdout, IsBroadcast(o), version,
                                isDeterministic, now);
        }
        if e.fatal.None? {
          RunChainsKeepsLogs(e.disk, o, targets[1..], version, deployer, n + 1, isDeterministic, now, path);
        }
      }
    }
  }

  /**
   * The driver's own steps in the per-chain loop never shorten or rewrite
   * the log: when the deployer at most appends to it, the log at the end
   * begins with what it held when the loop began.
   */
  lemma {:induction false} RunChainsExtendsLog(d: Disk, o: Options, targets: seq<string>, version: Option<string>,
                                               deployer: Deployer, n: nat, isDeterministic: bool)
    requires AppendsOnlyTo(deployer, LogPath(isDeterministic))
    ensures Extends(d, RunChains(d, o, targets, version, deployer, n).disk, LogPath(isDeterministic))
    decreases |targets|
  {
    if targets != [] {
      var log := LogPath(isDeterministic);
      var argv := Argv(o, targets[0]);
      var exec := deployer.exec(n, argv);
      if exec.Exec? {
        var written := deployer.writes(n, argv, d);
        assert Extends(d, written, log);
        var e := StepEffect(written, o, targets[0], version, exec);
        if o.cpBroadcastedFile {
          MoveArtifactKeepsLogs(written, o.scriptName, targets[0], exec.stdout, IsBroadcast(o), version,
                                isDeterministic, 0);
        }
        assert Extends(d, e.disk, log);
        if e.fatal.None? {
          var rest := RunChains(e.disk, o, targets[1..], version, deployer, n + 1);
          RunChainsExtendsLog(e.disk, o, targets[1..], version, deployer, n + 1, isDeterministic);
          PrefixTransitive(d, e.disk, rest.disk, log);
        }
      }
    }
  }

  /** Extends is transitive. */
  lemma PrefixTransitive(a: Disk, b: Disk, c: Disk, path: string)
    requires Extends(a, b, path) && Extends(b, c, path)
    ensures Extends(a, c, path)
  {
    if path in a.files {
      var x, y, z := a.files[path], b.files[path], c.files[path];
      assert z[..|x|] == z[..|y|][..|x|];
    }
  }

  /**
   * The calls recorded in `r` are those for the targets in order, one call
   * each; every call but the last started; all targets were called when
   * nothing was fatal, and at least one when something was.
   */
  ghost predicate CallsInOrder(o: Options, targets: seq<string>, deployer: Deployer, n: nat, r: Outcome) {
    && |r.invocations| <= |targets|
    && (forall k :: 0 <= k < |r.invocations| ==> r.invocations[k] == Argv(o, targets[k]))
    && (forall k :: 0 <= k < |r.invocations| - 1 ==> deployer.exec(n + k, r.invocations[k]).Exec?)
    && (r.fatal.None? ==> |r.invocations| == |targets|)
    && (r.fatal.Some? ==> |r.invocations| >= 1)
  }

  /**
   * The deployer is called for the targets in order, one call each, and the
   * loop goes on after every call that started, whatever its exit status,
   * until a fatal condition; it calls for every target when none occurs.
   */
  lemma {:induction false} RunChainsInvocations(d: Disk, o: Options, targets: seq<string>, version: Option<string>,
                                                deployer: Deployer, n: nat)
    ensures CallsInOrder(o, targets, deployer, n, RunChains(d, o, targets, version, deployer, n))
    decreases |targets|
  {
    if targets != [] {
      var argv := Argv(o, targets[0]);
      var exec := deployer.exec(n, argv);
      if exec.Exec? {
        var e := StepEffect(deployer.writes(n, argv, d), o, targets[0], version, exec);
        if e.fatal.None? {
          var rest := RunChains(e.disk, o, targets[1..], version, deployer, n + 1);
          RunChainsInvocations(e.disk, o, targets[1..], version, deployer, n + 1);
          CallsInOrderCons(o, targets, deployer, n, rest);
        }
      }
    }
  }

  /** The inductive step of RunChainsInvocations: a started first call in front of the rest of the loop. */
  lemma CallsInOrderCons(o: Options, targets: seq<string>, deployer: Deployer, n: nat, rest: Outcome)
    requires targets != [] && deployer.exec(n, Argv(o, targets[0])).Exec?
    requires CallsInOrder(o, targets[1..], deployer, n + 1, rest)
    ensures CallsInOrder(o, targets, deployer, n, Outcome(rest.disk, [Argv(o, targets[0])] + rest.invocations, rest.fatal))
  {
    var argv := Argv(o, targets[0]);
    var r := Outcome(rest.disk, [argv] + rest.invocations, rest.fatal);
    forall k | 0 <= k < |r.invocations| ensures r.invocations[k] == Argv(o, targets[k]) {
      if k > 0 {
        assert r.invocations[k] == rest.invocations[k - 1];
        assert targets[1..][k - 1] == targets[k];
      }
    }
    forall k | 0 <= k < |r.invocations| - 1 ensures deployer.exec(n + k, r.invocations[k]).Exec? {
      if k > 0 {
        assert r.invocations[k] == rest.invocations[k - 1];
        assert deployer.exec((n + 1) + (k - 1), rest.invocations[k - 1]).Exec?;
      }
    }
  }

  /**
   * Without `--cp-bf`, a loop in which every deployer call starts runs to
   * the end, failed deployments included, and the driver changes no file of
   * its own: the file system at the end is the one the deployer's calls leave.
   */
  lemma {:induction false} RunChainsWithoutCopy(d: Disk, o: Options, targets: seq<string>, version: Option<string>,
                                                deployer: Deployer, n: nat)
    requires !o.cpBroadcastedFile
    requires forall k :: 0 <= k < |targets| ==> deployer.exec(n + k, Argv(o, targets[k])).Exec?
    ensures RunChains(d, o, targets, version, deployer, n).fatal.None?
    ensures RunChains(d, o, targets, version, deployer, n).disk == DeployerWrites(d, o, targets, deployer, n)
    decreases |targets|
  {
    if targets != [] {
      assert deployer.exec(n + 0, Argv(o, targets[0])).Exec?;
      forall k | 0 <= k < |targets[1..]| ensures deployer.exec((n + 1) + k, Argv(o, targets[1..][k])).Exec? {
        assert targets[1..][k] == targets[k + 1];
        assert deployer.exec(n + (k + 1), Argv(o, targets[k + 1])).Exec?;
      }
      var written := deployer.writes(n, Argv(o, targets[0]), d);
      RunChainsWithoutCopy(written, o, targets[1..], version, deployer, n + 1);
    }
  }

  /** Archiving keeps a valid file system valid. */
  lemma MoveArtifactPreservesValid(d: Disk, scriptName: string, chain: string, output: string, isBroadcast: bool,
                                   version: Option<string>)
    requires Valid(d)
    ensures Valid(MoveArtifact(d, scriptName, chain, output, isBroadcast, version).disk)
  {
    if version.Some? {
      var src := ArtifactSource(scriptName, output, isBroadcast);
      var dst := ArchivePath(version.value, chain);
      var made := if PathExists(d, Parent(dst)) then Ok(d) else CreateDirAll(d, Parent(dst));
      if made.Ok? {
        if !PathExists(d, Parent(dst)) {
          CreateDirAllPreservesValid(d, Parent(dst));
        }
        if RenameFile(made.value, src, dst).Ok? {
          RenamePreservesValid(made.value, src, dst);
        }
      }
    }
  }

  lemma {:induction false} RunChainsPreservesValid(d: Disk, o: Options, targets: seq<string>, version: Option<string>,
                                                   deployer: Deployer, n: nat)
    requires Valid(d) && KeepsValid(deployer)
    ensures Valid(RunChains(d, o, targets, version, deployer, n).disk)
    decreases |targets|
  {
    if targets != [] {
      var argv := Argv(o, targets[0]);
      var exec := deployer.exec(n, argv);
      if exec.Exec? {
        var written := deployer.writes(n, argv, d);
        assert Valid(written);
        var e := StepEffect(written, o, targets[0], version, exec);
        if o.cpBroadcastedFile {
          MoveArtifactPreservesValid(written, o.scriptName, targets[0], exec.stdout, IsBroadcast(o), version);
        }
        if e.fatal.None? {
          RunChainsPreservesValid(e.disk, o, targets[1..], version, deployer, n + 1);
        }
      }
    }
  }

  /** A whole run keeps a valid file system valid, however it ends, when the deployer's calls do. */
  lemma DeploymentPreservesValid(d: Disk, args: seq<string>, config: ConfigSource, now: nat,
                                 version: Option<string>, deployer: Deployer)
    requires Valid(d) && KeepsValid(deployer)
    ensures Valid(Deployment(d, args, config, now, version, deployer).disk)
  {
    if Parse(args).Ok? {
      var o := Parse(args).value;
      var log := LogPath(o.isDeterministic);
      var rotatedDisk := RotateLog(d, o.isDeterministic, now);
      if PathExists(d, log) {
        if RenameFile(d, log, RotatedLogPath(o.isDeterministic, now)).Ok? {
          RenamePreservesValid(d, log, RotatedLogPath(o.isDeterministic, now));
        }
      } else if CreateDirAll(d, Parent(log)).Ok? {
        CreateDirAllPreservesValid(d, Parent(log));
      }
      var marked := RecordMarker(rotatedDisk, o.isDeterministic, IsBroadcast(o));
      if marked.Ok? {
        AppendCreatePreservesValid(rotatedDisk, log, Marker(IsBroadcast(o)));
        var targets := Resolve(o.onAllChains, o.providedChains, AllChains(config));
        RunChainsPreservesValid(marked.value, o, targets, version, deployer, 0);
      }
    }
  }

  /**
   * A run whose arguments parse calls the deployer for the resolved
   * targets, in order, one call each, stopping early only on a fatal condition.
   */
  lemma DeploymentInvocations(d: Disk, args: seq<string>, config: ConfigSource, now: nat,
                              version: Option<string>, deployer: Deployer)
    requires Parse(args).Ok?
    ensures var o := Parse(args).value;
      var targets := Resolve(o.onAllChains, o.providedChains, AllChains(config));
      var r := Deployment(d, args, config, now, version, deployer);
      && |r.invocations| <= |targets|
      && (forall k :: 0 <= k < |r.invocations| ==> r.invocations[k] == Argv(o, targets[k]))
      && (r.fatal.None? ==> |r.invocations| == |targets|)
  {
    var o := Parse(args).value;
    var targets := Resolve(o.onAllChains, o.providedChains, AllChains(config));
    var marked := RecordMarker(RotateLog(d, o.isDeterministic, now), o.isDeterministic, IsBroadcast(o));
    if marked.Ok? {
      RunChainsInvocations(marked.value, o, targets, version, deployer, 0);
    }
  }

  /**
   * A run that finds its log moves it aside and starts it afresh with the
   * marker; the driver itself never touches either file again. So the old
   * log stays, unchanged, at the timestamped path unless the deployer
   * changes it, and the log begins with the marker when the deployer at
   * most appends to it (and holds the marker alone when the deployer leaves
   * it alone), whatever happens in the per-chain loop.
   */
  lemma DeploymentKeepsOldLog(d: Disk, args: seq<string>, config: ConfigSource, now: nat,
                              version: Option<string>, deployer: Deployer)
    requires Valid(d) && Parse(args).Ok?
    requires LogPath(Parse(args).value.isDeterministic) in d.files
    requires RotatedLogPath(Parse(args).value.isDeterministic, now) !in d.dirs
    ensures var o := Parse(args).value;
      var log := LogPath(o.isDeterministic); var rotated := RotatedLogPath(o.isDeterministic, now);
      var r := Deployment(d, args, config, now, version, deployer);
      && (LeavesAlone(deployer, rotated) ==> rotated in r.disk.files && r.disk.files[rotated] == d.files[log])
      && (AppendsOnlyTo(deployer, log) ==> log in r.disk.files && Marker(IsBroadcast(o)) <= r.disk.files[log])
      && (LeavesAlone(deployer, log) ==> log in r.disk.files && r.disk.files[log] == Marker(IsBroadcast(o)))
  {
    var o := Parse(args).value;
    var log := LogPath(o.isDeterministic);
    var rotated := RotatedLogPath(o.isDeterministic, now);
    LogRotationAndMarker(d, o.isDeterministic, IsBroadcast(o), now);
    RotatedLogPathsDistinct(o.isDeterministic, now, now);
    var marked := RecordMarker(RotateLog(d, o.isDeterministic, now), o.isDeterministic, IsBroadcast(o)).value;
    assert rotated in marked.files && marked.files[rotated] == d.files[log];
    assert log in marked.files && marked.files[log] == Marker(IsBroadcast(o));
    var targets := Resolve(o.onAllChains, o.providedChains, AllChains(config));
    assert Deployment(d, args, config, now, version, deployer) == RunChains(marked, o, targets, version, deployer, 0);
    LoopKeepsFreshLog(marked, o, targets, version, deployer, now, d.files[log]);
  }

  /** The per-chain half of DeploymentKeepsOldLog, from the disk the marker left. */
  lemma LoopKeepsFreshLog(marked: Disk, o: Options, targets: seq<string>, version: Option<string>,
                          deployer: Deployer, now: nat, oldLog: string)
    requires var log := LogPath(o.isDeterministic); var rotated := RotatedLogPath(o.isDeterministic, now);
      && rotated in marked.files && marked.files[rotated] == oldLog
      && log in marked.files && marked.files[log] == Marker(IsBroadcast(o))
    ensures var log := LogPath(o.isDeterministic); var rotated := RotatedLogPath(o.isDeterministic, now);
      var r := RunChains(marked, o, targets, version, deployer, 0);
      && (LeavesAlone(deployer, rotated) ==> rotated in r.disk.files && r.disk.files[rotated] == oldLog)
      && (AppendsOnlyTo(deployer, log) ==> log in r.disk.files && Marker(IsBroadcast(o)) <= r.disk.files[log])
      && (LeavesAlone(deployer, log) ==> log in r.disk.files && r.disk.files[log] == Marker(IsBroadcast(o)))
  {
    var log := LogPath(o.isDeterministic);
    var rotated := RotatedLogPath(o.isDeterministic, now);
    if LeavesAlone(deployer, rotated) {
      RunChainsKeepsLogs(marked, o, targets, version, deployer, 0, o.isDeterministic, now, rotated);
    }
    if AppendsOnlyTo(deployer, log) {
      RunChainsExtendsLog(marked, o, targets, version, deployer, 0, o.isDeterministic);
    }
    if LeavesAlone(deployer, log) {
      RunChainsKeepsLogs(marked, o, targets, version, deployer, 0, o.isDeterministic, now, log);
    }
  }

  /**
   * The deployer's arguments follow the command line: the script chosen by
   * `--deterministic`, the chain, the broadcast argument exactly when
   * `--broadcast` was given, and the gas price argument of the last
   * `--gas-price`, or an empty one when there was none.
   */
  lemma ArgvFromCommandLine(args: seq<string>, chain: string)
    requires Parse(args).Ok?
    ensures var o := Parse(args).value; var argv := Argv(o, chain); var ws := Words(args);
      && |argv| == 6 && argv[0] == "script" && argv[2] == "--rpc-url" && argv[3] == chain
      && argv[1] == "../script/protocol/" + (if Token(DeterministicFlag) in ws then DeterministicScript else DefaultScript)
      && argv[4] == (if Token(BroadcastFlag) in ws then BroadcastArgs else "")
      && (IsBroadcast(o) <==> Token(BroadcastFlag) in ws)
      && ((forall j :: 0 <= j < |ws| ==> !ws[j].GasPrice?) ==> argv[5] == "")
      && (forall j :: 0 <= j < |ws| && ws[j].GasPrice? && (forall k :: j < k < |ws| ==> !ws[k].GasPrice?)
            ==> argv[5] == GasPriceArg(ws[j].value))
  {
    ParseSwitches(Defaults, args);
    ParseGasPriceLastWins(Defaults, args);
    assert BroadcastArgs[0] == ' ';
  }
}
