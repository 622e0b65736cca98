/**
 * The paths the deployment driver builds: the deployment log and its
 * timestamped rotation, the broadcast artifact written by the deployer, and
 * the archive location it is moved to; plus the deployer's argument vector.
 */
module Paths {
  import opened Wrappers

  // ---------------------------------------------------------------------
  // Decimal rendering of an unsigned integer, as `to_string` writes it
  // ---------------------------------------------------------------------

  predicate IsDigit(c: char) {
    '0' <= c <= '9'
  }

  predicate AllDigits(s: string) {
    forall i :: 0 <= i < |s| ==> IsDigit(s[i])
  }

  function DigitChar(d: nat): (c: char)
    requires d < 10
    ensures IsDigit(c)
  {
    ('0' as int + d) as char
  }

  function DigitValue(c: char): (d: nat)
    requires IsDigit(c)
    ensures d < 10
  {
    c as int - '0' as int
  }

  /** The decimal digits of `n`, most significant first, without leading zeros. */
  function Decimal(n: nat): (s: string)
    ensures |s| >= 1 && AllDigits(s)
    ensures s[0] == '0' ==> n == 0
    decreases n
  {
    if n < 10 then [DigitChar(n)] else Decimal(n / 10) + [DigitChar(n % 10)]
  }

  /** The number a string of decimal digits denotes. */
  function DecimalValue(s: string): nat
    requires AllDigits(s)
    decreases |s|
  {
    if s == [] then 0 else DecimalValue(s[..|s| - 1]) * 10 + DigitValue(s[|s| - 1])
  }

  /** Reading back the digits of `n` gives `n`. */
  lemma {:induction false} DecimalRoundTrip(n: nat)
    ensures DecimalValue(Decimal(n)) == n
    decreases n
  {
    if n >= 10 {
      DecimalRoundTrip(n / 10);
      var s := Decimal(n);
      assert s[..|s| - 1] == Decimal(n / 10);
    }
  }

  /** Distinct numbers have distinct renderings. */
  lemma DecimalInjective(a: nat, b: nat)
    requires Decimal(a) == Decimal(b)
    ensures a == b
  {
    DecimalRoundTrip(a);
    DecimalRoundTrip(b);
  }

  // ---------------------------------------------------------------------
  // Searching backwards for a character (`rfind`) and the parent directory
  // ---------------------------------------------------------------------

  /** The index of the last `c` in `s`, if any. */
  function LastIndexOf(s: string, c: char): (r: Option<nat>)
    ensures r.Some? ==> r.value < |s| && s[r.value] == c && forall k :: r.value < k < |s| ==> s[k] != c
    ensures r.None? ==> forall k :: 0 <= k < |s| ==> s[k] != c
    decreases |s|
  {
    if s == [] then None
    else if s[|s| - 1] == c then Some(|s| - 1)
    else LastIndexOf(s[..|s| - 1], c)
  }

  /** `rfind`: scans from the end of `s` for the last `c`. */
  method RFind(s: string, c: char) returns (r: Option<nat>)
    ensures r == LastIndexOf(s, c)
  {
    var i := |s|;
    while i > 0
      invariant 0 <= i <= |s|
      invariant LastIndexOf(s, c) == LastIndexOf(s[..i], c)
      decreases i
    {
      if s[i - 1] == c {
        return Some(i - 1);
      }
      assert s[..i][..i - 1] == s[..i - 1];
      i := i - 1;
    }
    return None;
  }

  /** Text after the last `c` cannot move it. */
  lemma {:induction false} LastIndexOfAppend(a: string, b: string, c: char)
    requires forall k :: 0 <= k < |b| ==> b[k] != c
    ensures LastIndexOf(a + b, c) == LastIndexOf(a, c)
    decreases |b|
  {
    if b != [] {
      assert (a + b)[..|a + b| - 1] == a + b[..|b| - 1];
      LastIndexOfAppend(a, b[..|b| - 1], c);
    } else {
      assert a + b == a;
    }
  }

  /** The parent directory of a path: everything before its last `/`, or the empty path when it has none. */
  function Parent(path: string): string {
    match LastIndexOf(path, '/')
    case Some(i) => path[..i]
    case None => ""
  }

  /** A path with a `/` after its first character has a non-empty parent, shorter than itself. */
  lemma ParentNonEmpty(path: string, k: nat)
    requires 0 < k < |path| && path[k] == '/'
    ensures 0 < |Parent(path)| < |path|
  {
  }

  /** The parent of `dir + "/" + name` is `dir` when `name` has no `/`. */
  lemma ParentOfChild(dir: string, name: string)
    requires forall k :: 0 <= k < |name| ==> name[k] != '/'
    ensures Parent(dir + "/" + name) == dir
  {
    LastIndexOfAppend(dir + "/", name, '/');
    assert dir + "/" + name == (dir + "/") + name;
    assert (dir + "/")[..|dir|] == dir;
  }

  // ---------------------------------------------------------------------
  // The deployment log
  // ---------------------------------------------------------------------

  const DeploymentsDir := "../deployments"

  function LogFileName(isDeterministic: bool): string {
    if isDeterministic then "deterministic.md" else "non_deterministic.md"
  }

  lemma LogFileNameHasNoSlash(isDeterministic: bool)
    ensures forall k :: 0 <= k < |LogFileName(isDeterministic)| ==> LogFileName(isDeterministic)[k] != '/'
  {
  }

  /** Where the log of the current run is written. */
  function LogPath(isDeterministic: bool): string {
    DeploymentsDir + "/" + LogFileName(isDeterministic)
  }

  /** Where a previous log is moved: the same directory, the file name prefixed by `<now>_`. */
  function RotatedLogPath(isDeterministic: bool, now: nat): string {
    DeploymentsDir + "/" + Decimal(now) + "_" + LogFileName(isDeterministic)
  }

  /**
   * `get_deployment_path`: the log path for the script variant; with a
   * timestamp, `<now>_` is inserted just after the last `/`.
   */
  method GetDeploymentPath(isDeterministic: bool, withTimestamp: bool, now: nat) returns (path: string)
    ensures path == if withTimestamp then RotatedLogPath(isDeterministic, now) else LogPath(isDeterministic)
  {
    path := LogPath(isDeterministic);
    if withTimestamp {
      var slash := RFind(path, '/');
      LogFileNameHasNoSlash(isDeterministic);
      LastIndexOfAppend(DeploymentsDir + "/", LogFileName(isDeterministic), '/');
      var filenameStart := slash.value + 1;
      assert path[..filenameStart] == DeploymentsDir + "/";
      assert path[filenameStart..] == LogFileName(isDeterministic);
      path := path[..filenameStart] + Decimal(now) + "_" + path[filenameStart..];
    }
  }

  /** Both log paths lie in the deployments directory: rotation only renames the file. */
  lemma LogPathsShareDirectory(isDeterministic: bool, now: nat)
    ensures Parent(LogPath(isDeterministic)) == DeploymentsDir
    ensures Parent(RotatedLogPath(isDeterministic, now)) == DeploymentsDir
  {
    LogFileNameHasNoSlash(isDeterministic);
    ParentOfChild(DeploymentsDir, LogFileName(isDeterministic));
    ParentOfStamped(DeploymentsDir, Decimal(now), LogFileName(isDeterministic));
  }

  /** The parent of `dir/<digits>_name` is `dir` when `name` has no `/`. */
  lemma ParentOfStamped(dir: string, stamp: string, name: string)
    requires AllDigits(stamp)
    requires forall k :: 0 <= k < |name| ==> name[k] != '/'
    ensures Parent(dir + "/" + stamp + "_" + name) == dir
  {
    var stamped := stamp + "_" + name;
    forall k | 0 <= k < |stamped| ensures stamped[k] != '/' {
      if k < |stamp| {
        assert stamped[k] == stamp[k] && IsDigit(stamp[k]);
      } else if k > |stamp| {
        assert stamped[k] == name[k - |stamp| - 1];
      }
    }
    ParentOfChild(dir, stamped);
    assert dir + "/" + stamp + "_" + name == dir + "/" + stamped;
  }

  /** Rotation never targets the live log, and logs rotated at different seconds never collide. */
  lemma RotatedLogPathsDistinct(isDeterministic: bool, now: nat, later: nat)
    ensures RotatedLogPath(isDeterministic, now) != LogPath(isDeterministic)
    ensures now != later ==> RotatedLogPath(isDeterministic, now) != RotatedLogPath(isDeterministic, later)
  {
    var p := DeploymentsDir + "/";
    var name := "_" + LogFileName(isDeterministic);
    assert RotatedLogPath(isDeterministic, now) == p + Decimal(now) + name;
    assert RotatedLogPath(isDeterministic, later) == p + Decimal(later) + name;
    if now != later {
      if Decimal(now) == Decimal(later) {
        DecimalInjective(now, later);
      }
      MiddleInjective(p, Decimal(now), Decimal(later), name);
    }
  }

  /** Strings that share a prefix and a suffix are equal only when their middles are. */
  lemma MiddleInjective(p: string, a: string, b: string, s: string)
    requires a != b
    ensures p + a + s != p + b + s
  {
    if |a| == |b| {
      assert a == (p + a + s)[|p|..|p| + |a|];
      assert b == (p + b + s)[|p|..|p| + |b|];
    }
  }

  // ---------------------------------------------------------------------
  // The broadcast artifact and its archive location
  // ---------------------------------------------------------------------

  const RunFile := "run-latest.json"

  /** The directory of the deployer's record of a run: `dry-run` inside it unless broadcasting. */
  function RecordDir(scriptName: string, chainId: string, isBroadcast: bool): string {
    "../broadcast/" + scriptName + "/" + chainId + (if isBroadcast then "" else "/dry-run")
  }

  /** Where the deployer leaves its record of a run: `run-latest.json` in the record directory. */
  function SourcePath(scriptName: string, chainId: string, isBroadcast: bool): (path: string)
    ensures Parent(path) == RecordDir(scriptName, chainId, isBroadcast)
    ensures path == Parent(path) + "/" + RunFile
  {
    ParentOfChild(RecordDir(scriptName, chainId, isBroadcast), RunFile);
    RecordDir(scriptName, chainId, isBroadcast) + "/" + RunFile
  }

  /** The archive directory of one release of the protocol. */
  function ArchiveDir(version: string): string {
    "../../v2-deployments/protocol/v" + version + "/broadcasts"
  }

  /**
   * Where a chain's broadcast record is archived: `<chain>.json`, which lies
   * in the release's archive directory when the chain name has no `/`.
   */
  function ArchivePath(version: string, chain: string): (path: string)
    ensures (forall k :: 0 <= k < |chain| ==> chain[k] != '/') ==> Parent(path) == ArchiveDir(version)
  {
    ParentOfJson(ArchiveDir(version), chain);
    ArchiveDir(version) + "/" + chain + ".json"
  }

  /** The parent of `dir/<name>.json` is `dir` when `name` has no `/`. */
  lemma ParentOfJson(dir: string, name: string)
    ensures (forall k :: 0 <= k < |name| ==> name[k] != '/') ==> Parent(dir + "/" + name + ".json") == dir
  {
    if forall k :: 0 <= k < |name| ==> name[k] != '/' {
      var file := name + ".json";
      forall k | 0 <= k < |file| ensures file[k] != '/' {
        if k < |name| {
          assert file[k] == name[k];
        }
      }
      ParentOfChild(dir, file);
      assert dir + "/" + name + ".json" == dir + "/" + file;
    }
  }

  /** The simulated run's record is the broadcast one's with `dry-run/` inserted before the file name. */
  lemma SourcePathDryRun(scriptName: string, chainId: string)
    ensures var live := SourcePath(scriptName, chainId, true);
      && |live| >= |RunFile|
      && live == live[..|live| - |RunFile|] + RunFile
      && SourcePath(scriptName, chainId, false) == live[..|live| - |RunFile|] + "dry-run/" + RunFile
  {
    var dir := "../broadcast/" + scriptName + "/" + chainId + "/";
    assert SourcePath(scriptName, chainId, true) == dir + RunFile;
    assert SourcePath(scriptName, chainId, false) == dir + "dry-run/" + RunFile;
    assert (dir + RunFile)[..|dir|] == dir;
  }

  /** Different chain ids of one script and mode name different records. */
  lemma SourcePathInjective(scriptName: string, id1: string, id2: string, isBroadcast: bool)
    requires id1 != id2
    ensures SourcePath(scriptName, id1, isBroadcast) != SourcePath(scriptName, id2, isBroadcast)
  {
    var p := "../broadcast/" + scriptName + "/";
    var tail := if isBroadcast then "" else "/dry-run";
    assert RecordDir(scriptName, id1, isBroadcast) == p + id1 + tail;
    assert RecordDir(scriptName, id2, isBroadcast) == p + id2 + tail;
    MiddleInjective(p, id1, id2, tail);
  }

  /** Within one release, different chains are archived in different files. */
  lemma ArchivePathInjective(version: string, chain1: string, chain2: string)
    requires chain1 != chain2
    ensures ArchivePath(version, chain1) != ArchivePath(version, chain2)
  {
    var p := ArchiveDir(version) + "/";
    assert ArchivePath(version, chain1) == p + chain1 + ".json";
    assert ArchivePath(version, chain2) == p + chain2 + ".json";
    MiddleInjective(p, chain1, chain2, ".json");
  }

  /** The log, a broadcast record and an archive file are never the same path. */
  lemma PathFamiliesDisjoint(isDeterministic: bool, now: nat, scriptName: string, chainId: string,
                             isBroadcast: bool, version: string, chain: string)
    ensures var src := SourcePath(scriptName, chainId, isBroadcast);
      var dst := ArchivePath(version, chain);
      && src != dst
      && LogPath(isDeterministic) != src && LogPath(isDeterministic) != dst
      && RotatedLogPath(isDeterministic, now) != src && RotatedLogPath(isDeterministic, now) != dst
  {
    // The fourth characters differ: 'd' (deployments), 'b' (broadcast), '.' (../../).
    assert SourcePath(scriptName, chainId, isBroadcast)[3] == 'b';
    assert ArchivePath(version, chain)[3] == '.';
    assert LogPath(isDeterministic)[3] == 'd';
    assert RotatedLogPath(isDeterministic, now)[3] == 'd';
  }

  // ---------------------------------------------------------------------
  // The deployer's argument vector
  // ---------------------------------------------------------------------

  /** The directory the deployment scripts live in. */
  const ScriptDir := "../script/protocol/"

  /**
   * The six arguments handed to the deployer: the script under the scripts
   * directory, the chain as the value of `--rpc-url`, and the broadcast and
   * gas price settings as single arguments, empty when unset.
   */
  function ForgeArgs(scriptName: string, chain: string, broadcastDeployment: string, gasPrice: string)
    : (argv: seq<string>)
    ensures |argv| == 6 && argv[0] == "script" && argv[2] == "--rpc-url" && argv[3] == chain
    ensures |argv[1]| >= |ScriptDir| && argv[1][..|ScriptDir|] == ScriptDir && argv[1][|ScriptDir|..] == scriptName
    ensures argv[4] == broadcastDeployment && argv[5] == gasPrice
  {
    ["script", ScriptDir + scriptName, "--rpc-url", chain, broadcastDeployment, gasPrice]
  }

  /** Every setting can be read back from the argument vector: different settings give different vectors. */
  lemma ForgeArgsInjective(s1: string, c1: string, b1: string, g1: string, s2: string, c2: string, b2: string, g2: string)
    requires ForgeArgs(s1, c1, b1, g1) == ForgeArgs(s2, c2, b2, g2)
    ensures s1 == s2 && c1 == c2 && b1 == b2 && g1 == g2
  {
    var a := ForgeArgs(s1, c1, b1, g1);
    assert s1 == a[1][|ScriptDir|..] == s2;
  }
}
