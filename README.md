# Multi-chain deployment driver, modelled in Dafny

This project models the deployment driver in `deploy-multi-chain/src/main.rs`. The driver is a command-line tool that deploys the protocol's contracts to several blockchain networks, one after another. A run goes through these steps:

1. It reads the command line: `--all`, `--cp-bf`, `--deterministic`, `--broadcast`, `--gas-price <value>`, and bare chain names.
2. It builds the chain registry: the keys of the `rpc_endpoints` and `etherscan` sections of the build tool's configuration, minus `localhost`.
3. It resolves the target chains:
   - with `--all`, the whole registry;
   - otherwise the requested chains that are registered;
   - `sepolia` when nothing is left.
4. It rotates the deployment log (`../deployments/deterministic.md` or `../deployments/non_deterministic.md`) aside under a timestamped name, and starts the new log with a marker saying whether the run broadcasts or simulates.
5. It runs the deployer (`forge script ...`) once per target chain. With `--cp-bf` it then moves the broadcast record the deployer wrote into a per-release archive. That record is found through the network id printed in the deployer's output.

The modules follow the program's parts:

| file | module | models |
|---|---|---|
| `cli.dfy` | `Cli` | the argument loop: a method over a token sequence, proved against a recursive function. Lemmas characterise the result through an independent word-level reading of the command line. |
| `registry.dfy` | `Registry` | `get_all_chains`, over an already parsed configuration |
| `targets.dfy` | `Targets` | the `retain` filter and the `sepolia` default |
| `seqs.dfy` | `Seqs` | order-preserving filtering, which `retain` and `filter` share |
| `paths.dfy` | `Paths` | `u64::to_string`, `rfind`, the log paths (`get_deployment_path`), the broadcast record and archive paths, and the deployer's argument vector |
| `output.dfy` | `Output` | reading the network id out of the deployer's output with `split` |
| `filesystem.dfy` | `FileSys` | the file system: regular files and directories, with `rename`, `create_dir_all`, append-or-create and `exists`. Each is a function on a snapshot and a method of a mutable `FileSystem` object. |
| `driver.dfy` | `Driver` | log rotation, the marker, `move_broadcast_file`, the per-chain loop and `main`. Each is a function of the snapshot and a method on the `FileSystem` object proved equal to it. |

The model takes these as inputs instead of performing them:

- **The deployer** is the parameter `deployer`, a `Deployer` with two functions:
  - `exec` maps the position of a call and its argument vector to `Exec(success, stdout, stderr)`, or to `NotStarted` when the process cannot be spawned;
  - `writes` gives the file system that a started call leaves behind: the broadcast record it saves, the lines it adds to the log, or anything else.

  The driver's own steps for a chain run on the file system the deployer left. Properties of the log hold under stated conditions on `writes`: that it leaves a file alone, or only appends to it.
- **The clock** is `now`, the Unix time in seconds.
- **The parsed configuration** is a `ConfigSource`: unreadable, unparsable, or the top-level values.
- **The package version** is an `Option<string>`. `None` means `package.json` could not be read, parsed, or has no string `version`.

The driver's panics are the `Fatal` outcomes of a run. They are:

- a missing gas price value;
- a log that cannot be written;
- a deployer that cannot be started;
- an unreadable version;
- a failed directory creation or rename while archiving.

The model follows the code, including where the code does less than, or something other than, what a user of the tool might expect:

- The registry is a list built by `extend`, not a set. A chain configured in both sections is listed twice, and is then deployed to twice under `--all` (`Registry.AllChainsCounts`, `Registry.ChainInBothSectionsListedTwice`).
- The `sepolia` default is pushed without looking at the registry, so a target is not always a registered chain (`Targets.DefaultMayBeUnregistered`).
- The archive step is not all-or-nothing. A step that fails at the rename may already have created the archive directories (`Driver.MoveArtifactOutcome` keeps every file but not every directory).
- The broadcast record is archived with `--cp-bf` even for a simulation, from its `dry-run` location.
- The deployer's arguments carry no `--sig` admin address, and its output is not searched for an error marker. A failed deployment never halts the loop.
- The network id is not simply "the segment after `broadcast/<script>/`". The code takes the text between the first and the second occurrence of that pattern and cuts it at the first `/` (`Output.ChainIdStopsAtNextPattern`).

## Model

| member | source | states |
|---|---|---|
| Cli.Apply | deploy-multi-chain/src/main.rs:27-46 | Each recognised flag sets its own variable only. A bare token is appended to the requested chains unless `--all` came first. Any other `--` token changes nothing. |
| Cli.ParseArgs | deploy-multi-chain/src/main.rs:17-47 | The token loop computes exactly `Parse(args)`: the seven variables, or the missing-gas-price error. |
| Cli.ParseFailsIffDangling | deploy-multi-chain/src/main.rs:35-38 | Parsing fails if and only if some `--gas-price` is the last token, taking each gas price's value into account. |
| Cli.ParseSwitches | deploy-multi-chain/src/main.rs:28-34 | `--all`, `--cp-bf`, `--deterministic` and `--broadcast` take effect exactly when they occur as words, and a gas price value does not count as a word. The script name and the broadcast text follow from them. |
| Cli.ParseGasPriceLastWins | deploy-multi-chain/src/main.rs:35-38 | The gas price text is `" --gas-price " + v` for the last `--gas-price v`, and stays empty when there is none. |
| Cli.ParseRequestedChains | deploy-multi-chain/src/main.rs:39-44 | The requested chains are the bare tokens before the first `--all`, in command-line order, with repeats kept. |
| Cli.GasPriceValueMayLookLikeAFlag | deploy-multi-chain/src/main.rs:35-38 | `--gas-price --all` takes `--all` as the value, and all-chains mode stays off. |
| Seqs.Filter | deploy-multi-chain/src/main.rs:55-62 | Keeps exactly the elements that pass the test, and never grows. |
| Seqs.FilterCount | deploy-multi-chain/src/main.rs:55-62 | Every kept value appears as often as in the input, and every dropped value not at all. |
| Registry.GetAllChains | deploy-multi-chain/src/main.rs:166-197 | The loop over the two sections computes `AllChains`: RPC chains, then explorer chains, or nothing on a read or parse failure. |
| Registry.ExtendWithSection | deploy-multi-chain/src/main.rs:191-195 | One section extends the list with its keys other than `localhost`, in key order. |
| Registry.NeverLocalhost | deploy-multi-chain/src/main.rs:193 | `localhost` is never registered. |
| Registry.AllChainsMembers | deploy-multi-chain/src/main.rs:171-197 | A read or parse failure registers nothing. Otherwise a name is registered if and only if it is a key of either section and is not `localhost`. |
| Registry.AllChainsCounts | deploy-multi-chain/src/main.rs:188-197 | Each name other than `localhost` is listed as often as it is a key of the two sections together, so there is no de-duplication. `localhost` is never listed (`Registry.NeverLocalhost`). |
| Registry.ChainInBothSectionsListedTwice | deploy-multi-chain/src/main.rs:188-197 | A chain configured in both sections is listed at least twice. |
| Registry.RpcChainsFirst | deploy-multi-chain/src/main.rs:188-195 | The RPC section's chains come first, in key order: its keys other than `localhost`. When no RPC key is `localhost`, they are exactly its keys. |
| Targets.ResolveTargets | deploy-multi-chain/src/main.rs:49-68 | The `retain` loop and the default push compute `Resolve`. |
| Targets.ResolveAll | deploy-multi-chain/src/main.rs:51-52 | With `--all` the targets are exactly the registry, even an empty one. |
| Targets.ResolveRequested | deploy-multi-chain/src/main.rs:53-63 | If some requested chain is registered, the targets are the registered requested chains. Each appears as often as it was requested. A name is a target if and only if it was requested and is registered. |
| Targets.RegisteredKeepsOrder | deploy-multi-chain/src/main.rs:55-62 | Filtering preserves command-line order: it distributes over concatenation. |
| Targets.ResolveDefault | deploy-multi-chain/src/main.rs:65-68 | If no requested chain is registered, the target is `sepolia` alone. |
| Targets.TargetsRegisteredOrDefault | deploy-multi-chain/src/main.rs:49-68 | Every target is registered, except the lone `sepolia` default. |
| Targets.DefaultMayBeUnregistered | deploy-multi-chain/src/main.rs:65-68 | `sepolia` is targeted even when the registry does not contain it. |
| Paths.Decimal | deploy-multi-chain/src/main.rs:209-213 | The rendering of the timestamp is non-empty and all digits, and starts with `0` only for zero. |
| Paths.DecimalRoundTrip | deploy-multi-chain/src/main.rs:209-213 | Reading the rendering back gives the number. |
| Paths.DecimalInjective | deploy-multi-chain/src/main.rs:209-213 | Different timestamps render differently. |
| Paths.LastIndexOf | deploy-multi-chain/src/main.rs:216 | The index of the last occurrence of the character, or none when it does not occur. |
| Paths.RFind | deploy-multi-chain/src/main.rs:216 | The backward scan finds exactly `LastIndexOf`. |
| Paths.ParentOfChild | deploy-multi-chain/src/main.rs:85 | The parent of `dir/name` is `dir` when `name` has no `/`. |
| Paths.GetDeploymentPath | deploy-multi-chain/src/main.rs:200-221 | Without a timestamp, the path is the log path of the script variant. With one, the path is the same directory followed by `<now>_` and the file name. |
| Paths.ParentOfStamped | deploy-multi-chain/src/main.rs:216-217 | The parent of `dir/<digits>_name` is `dir` when `name` has no `/`. |
| Paths.LogPathsShareDirectory | deploy-multi-chain/src/main.rs:216-217 | The log and its rotated name are both in `../deployments`, so the directory is never changed. |
| Paths.RotatedLogPathsDistinct | deploy-multi-chain/src/main.rs:207-218 | The rotated name is never the live log, and different timestamps give different names. |
| Paths.SourcePath | deploy-multi-chain/src/main.rs:236-243 | The record is `run-latest.json` in `../broadcast/<script>/<id>`, or in its `dry-run` sub-directory for a simulation. |
| Paths.SourcePathDryRun | deploy-multi-chain/src/main.rs:236-243 | A simulation's record path is the broadcast one with `dry-run/` inserted before `run-latest.json`. |
| Paths.SourcePathInjective | deploy-multi-chain/src/main.rs:236-243 | Different network ids give different record paths. |
| Paths.ArchivePath | deploy-multi-chain/src/main.rs:252-259 | For a chain name without `/`, the archive file lies in `../../v2-deployments/protocol/v<version>/broadcasts`, the directory the step creates. |
| Paths.ArchivePathInjective | deploy-multi-chain/src/main.rs:252-255 | Within one release, different chains are archived in different files. |
| Paths.PathFamiliesDisjoint | deploy-multi-chain/src/main.rs:236-255 | A record path, an archive path and the two log paths are never equal. |
| Paths.ForgeArgs | deploy-multi-chain/src/main.rs:94-103 | Six arguments: `script`, `../script/protocol/` followed by the script name, `--rpc-url`, the chain, the broadcast text and the gas price text. |
| Paths.ForgeArgsInjective | deploy-multi-chain/src/main.rs:94-103 | The argument vector determines the script name, the chain, the broadcast text and the gas price text. |
| Output.FindFrom | deploy-multi-chain/src/main.rs:230-231 | Finds the first occurrence of the pattern at or after a position, or shows that there is none. |
| Output.FirstSegment | deploy-multi-chain/src/main.rs:233 | Returns the longest prefix without `/`. It stops at a `/` or at the end. |
| Output.ChainId | deploy-multi-chain/src/main.rs:229-234 | The id never contains `/` and is no longer than the output. It is empty when the output does not contain `broadcast/<script>/`. |
| Output.ChainIdFollowsFirstOccurrence | deploy-multi-chain/src/main.rs:229-234 | The id is the text right after the first occurrence. It contains no `/`, no occurrence starts inside it, and it ends at a `/`, at the next occurrence, or at the end of the output. |
| Output.IdFollowsFirstOccurrence | deploy-multi-chain/src/main.rs:229-234 | For any non-empty pattern, the text read after its first occurrence sits right there in the output. It contains no `/`, no occurrence starts inside it, and it ends at a `/`, at the next occurrence, or at the end. |
| Output.IdPlacedUnique | deploy-multi-chain/src/main.rs:229-234 | Only one text meets those conditions at a given position, so they determine the id. |
| Output.IdRoundTrip | deploy-multi-chain/src/main.rs:229-234 | For any non-empty pattern that does not start with `/`, an id without `/` and without the pattern's first character, written after the pattern and followed by `/`, is read back exactly, if the pattern does not occur earlier. |
| Output.IdStopsAtNextOccurrence | deploy-multi-chain/src/main.rs:229-234 | Text that cannot start the pattern, followed by the pattern again, is read as its own first segment: the second occurrence cuts the id. |
| Output.ChainIdRoundTrip | deploy-multi-chain/src/main.rs:229-234 | A numeric id written after the pattern and followed by `/` is read back exactly, if the pattern does not occur earlier. |
| Output.ChainIdAfterPlainText | deploy-multi-chain/src/main.rs:229-234 | The same holds when the text before the pattern contains no `b`. |
| Output.ChainIdOfBaseRecord | deploy-multi-chain/src/main.rs:229-234 | `../broadcast/<script>/8453/run-latest.json` yields the id `8453`. |
| Output.ChainIdOfDecimal | deploy-multi-chain/src/main.rs:229-234 | Any rendered network number survives the round trip. |
| Output.ChainIdStopsAtNextPattern | deploy-multi-chain/src/main.rs:229-234 | The id is also cut where the pattern occurs again, even before any `/`. |
| FileSys.RenameFileEffect | deploy-multi-chain/src/main.rs:265-266 | A rename succeeds if and only if the source is a file, the destination's parent is a directory and the destination is not a directory. On success the destination holds the source's content and the source is gone. No other file or directory changes. |
| FileSys.RenamePreservesValid | deploy-multi-chain/src/main.rs:265-266 | A rename keeps files and directories disjoint, and keeps every file inside a directory. |
| FileSys.CreateDirAllEffect | deploy-multi-chain/src/main.rs:258-261 | Creating a directory tree succeeds if and only if no ancestor is a file. On success the directory and every ancestor exist, no other directory appears, and no file changes. |
| FileSys.CreateDirAllPreservesValid | deploy-multi-chain/src/main.rs:258-261 | Creating directories keeps the file system valid. |
| FileSys.AppendCreateEffect | deploy-multi-chain/src/main.rs:157-162 | Append-or-create succeeds if and only if the path is not a directory and is a file or lies in a directory. The file then holds its old content (empty when it was new) followed by the text. Nothing else changes. |
| FileSys.AppendCreatePreservesValid | deploy-multi-chain/src/main.rs:157-162 | Appending keeps the file system valid. |
| FileSys.FileSystem.Exists | deploy-multi-chain/src/main.rs:77 | True if and only if a file or a directory is at the path. |
| FileSys.FileSystem.Rename | deploy-multi-chain/src/main.rs:79-82 | The object's new state and error are those of `RenameFile`. |
| FileSys.FileSystem.CreateDirs | deploy-multi-chain/src/main.rs:85 | The object's new state and error are those of `CreateDirAll`. |
| FileSys.FileSystem.Append | deploy-multi-chain/src/main.rs:157-162 | The object's new state and error are those of `AppendCreate`. |
| FileSys.FileSystem.Become | deploy-multi-chain/src/main.rs:117-120 | The object's new state is the file system a deployer call left. |
| Driver.RotateLogFile | deploy-multi-chain/src/main.rs:76-86 | The file system afterwards is `RotateLog` of the one before: rename the existing log, otherwise create its directory, and ignore any error. |
| Driver.AppendTypeOfDeployment | deploy-multi-chain/src/main.rs:151-163 | The marker is appended to the log, or the log is created holding it. The error, if any, is reported. |
| Driver.PrepareLog | deploy-multi-chain/src/main.rs:74-89 | Rotation followed by the marker, as `RotateLog` then `RecordMarker`. |
| Driver.MoveBroadcastFile | deploy-multi-chain/src/main.rs:223-267 | The file system afterwards, and the fatal condition if any, are `MoveArtifact` of the one before. |
| Driver.FinishChain | deploy-multi-chain/src/main.rs:133-141 | The record is archived only with `--cp-bf`. Otherwise nothing changes. |
| Driver.DeployToChain | deploy-multi-chain/src/main.rs:92-141 | One turn of the loop: the arguments are those for the chain. A call that cannot start is fatal and changes nothing. Otherwise the archive step runs on the file system the deployer left. |
| Driver.DeployToChains | deploy-multi-chain/src/main.rs:91-142 | The loop's file system, deployer calls and fatal condition are exactly `RunChains`. |
| Driver.Deploy | deploy-multi-chain/src/main.rs:11-142 | The whole run's file system, deployer calls and fatal condition are exactly `Deployment`. |
| Driver.Marker | deploy-multi-chain/src/main.rs:151-154 | The marker says "broadcasted" if and only if the run broadcasts, and "a simulation" if and only if it does not. |
| Driver.Argv | deploy-multi-chain/src/main.rs:94-103 | For a chain and the parsed options: six arguments, the script path ending in the chosen script, the chain fourth, the broadcast text fifth (non-empty exactly when the run broadcasts), and the gas price text sixth. |
| Driver.LogRotationAndMarker | deploy-multi-chain/src/main.rs:76-89 | There are four cases, and in each that succeeds no other file changes. An existing log moves unchanged to its timestamped name and the log then holds only the marker. If a directory blocks the rename, the marker is appended to the old log. A missing log is created holding the marker, when no ancestor of `../deployments` is a file. A directory at the log path makes the step fail. |
| Driver.ExistingLogRotated | deploy-multi-chain/src/main.rs:76-82 | An existing log is moved aside unchanged and a fresh log holds only the marker. |
| Driver.MissingLogCreated | deploy-multi-chain/src/main.rs:83-86 | With no log, and no ancestor of `../deployments` being a file, the directory is created and the log holds only the marker. |
| Driver.MoveArtifactFrame | deploy-multi-chain/src/main.rs:245-266 | An unreadable version is fatal before anything changes. Otherwise no file other than the record and the archive file changes. |
| Driver.MoveArtifactOutcome | deploy-multi-chain/src/main.rs:236-266 | On success the record is gone, the archive file holds its content, and no other file changes. A missing record is fatal. A fatal step leaves every file as it was. The step succeeds when the record and the archive directory exist and the archive path is not a directory. |
| Driver.MoveArtifactSucceeds | deploy-multi-chain/src/main.rs:252-265 | Archiving succeeds if and only if the record exists, the archive path is not a directory, and the archive directory either exists or has no ancestor that is a file. A missing archive directory is then created with its ancestors before the move. On success the archive directory exists, and the only directories added are those `create_dir_all` made. |
| Driver.MoveArtifactKeepsLogs | deploy-multi-chain/src/main.rs:257-266 | Archiving never touches the live or rotated log. |
| Driver.RunChainsKeepsLogs | deploy-multi-chain/src/main.rs:91-142 | The driver's own steps in the loop never touch the live or rotated log. A log that the deployer leaves alone is unchanged at the end of the loop. |
| Driver.RunChainsExtendsLog | deploy-multi-chain/src/main.rs:88-142 | The driver's own steps never shorten or rewrite the log. When the deployer only appends to it, the log at the end of the loop begins with what it held before. |
| Driver.RunChainsInvocations | deploy-multi-chain/src/main.rs:91-142 | The deployer is called once per target, in target order, with that target's arguments. Every call before the last one started. Without a fatal condition, every target is called. |
| Driver.RunChainsWithoutCopy | deploy-multi-chain/src/main.rs:117-131 | Without `--cp-bf`, if every call starts, the loop reaches the end even through failed deployments. The driver then writes no file of its own: the file system at the end is the one the deployer's calls leave. |
| Driver.MoveArtifactPreservesValid | deploy-multi-chain/src/main.rs:257-266 | Archiving keeps the file system valid. |
| Driver.RunChainsPreservesValid | deploy-multi-chain/src/main.rs:91-142 | The loop keeps the file system valid when the deployer's calls do. |
| Driver.DeploymentPreservesValid | deploy-multi-chain/src/main.rs:11-142 | A whole run keeps the file system valid, however it ends, when the deployer's calls do. |
| Driver.DeploymentInvocations | deploy-multi-chain/src/main.rs:49-142 | A run whose arguments parse calls the deployer for the resolved targets, in order, one call each. It stops early only on a fatal condition. |
| Driver.DeploymentKeepsOldLog | deploy-multi-chain/src/main.rs:74-142 | A run that finds its log moves it aside and starts a fresh log with the marker. The old content stays under the timestamped name unless the deployer changes it. The log begins with the marker when the deployer only appends to it, and holds the marker alone when the deployer leaves it alone. |
| Driver.ArgvFromCommandLine | deploy-multi-chain/src/main.rs:94-103 | The six arguments are:<br>• `script`;<br>• the script chosen by `--deterministic`;<br>• `--rpc-url` and the chain;<br>• the broadcast text exactly when `--broadcast` was given;<br>• the gas price text of the last `--gas-price v`, or an empty one when `--gas-price` was not given. |

## Left out

- The deployer and the formatter are not run. `forge` is the `deployer` input. The final `bun prettier --write` call (deploy-multi-chain/src/main.rs:144-148), and its panic when `bun` cannot be started, are not modelled. That call reformats the logs under `../deployments`, so the log properties (`Driver.DeploymentKeepsOldLog`, `Driver.RunChainsExtendsLog`) describe the logs before it runs.
- `env::set_var("FOUNDRY_PROFILE", "optimized")` (deploy-multi-chain/src/main.rs:112-114) is process-global state with no effect on anything modelled.
- All console output (`println!`, `eprintln!`) is diagnostics only. This covers the unknown-flag and unconfigured-chain messages, the target list, the command line, and the deployer's output and errors. The `success` and `stderr` of a call are therefore only carried, never used.
- TOML parsing of `../foundry.toml` and JSON parsing of `../package.json` are library calls. Their results are the inputs `ConfigSource` and `Option<string>`. The three ways of failing to get a version (unreadable file, invalid JSON, missing or non-string `version`) are one `None`.
- `SystemTime::now()` is the input `now`. The "Time went backwards" panic and the 64-bit range of the seconds are not modelled. The clock is read only when a log exists, and `now` is then used.
- The program name is not part of `args`: the model starts from the tokens after it.
- `String::from_utf8_lossy` on the deployer's output is not modelled. The output is already text.
- The file system has regular files and directories only. It has no symbolic links, permissions, or concurrent writers.
- Paths are plain strings. `..` and repeated or trailing `/` are not resolved, and the parent of a path is the text before its last `/`.
- FileSys.RenameFileEffect: renaming a directory is refused rather than performed, so the rename's success condition asks for a regular file, whereas the real `fs::rename` also moves a directory. So a directory at the log path or at the record path leads to different results in the model and in the program (next two lines).
- FileSys.CreateDirAll: it either creates every missing ancestor or nothing. The real call may create some ancestors before it fails.
- Driver.LogRotationAndMarker: a directory at the log path makes the step fail (`LogNotWritable`) in the model. The real program moves that directory aside under the timestamped name, creates a fresh log and goes on.
- Driver.MoveArtifactOutcome: a directory at the record path is fatal in the model, but the real rename moves it to the archive path.
- Driver.MoveArtifactSucceeds: for the same reason, its condition for success requires the record to be a regular file.
- Output.ChainIdRoundTrip: it requires a numeric id rather than any id without `/`. An id without `/` can still be cut short. This happens when the id ends with a prefix of `broadcast/<script>/` and the text after it completes the pattern. For example, `1broadcast` followed by `/<script>/` is read as `1`, because a new occurrence starts inside the id (`Output.ChainIdStopsAtNextPattern`). So the round trip does not hold for every id without `/`. Network ids printed by the deployer are decimal numbers; `Output.IdRoundTrip` covers every id with no `/` and no `b`.
- The TypeScript deployment scripts (`scripts/deploy.ts`, `deploy/deploy.ts`) and `hardhat.config.ts` are not part of this model. They are thin wrappers over library and network calls.
