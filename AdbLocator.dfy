/**
 * Locating the `adb` executable (`getAdbPath` of the tool window): an ordered
 * chain of strategies in which the first hit wins and a strategy that fails,
 * by an exception or by finding nothing, hands over to the next.
 */
module AdbLocator {
  import opened Wrappers
  import opened Files

  const ANDROID_HOME := "ANDROID_HOME"
  const ANDROID_SDK_ROOT := "ANDROID_SDK_ROOT"
  const ADB_IN_SDK := "platform-tools/adb"

  /** What the IDE's SDK service (`AndroidSdkUtils.getAdb`) does. */
  datatype SdkLookup = SdkThrows | SdkNoAdb | SdkAdb(file: string)

  /** What running `which adb` does: the spawn fails, or it prints something. */
  datatype WhichRun = WhichThrows | WhichOutput(stdout: string)

  /** Everything outside the plug-in that the locator consults. */
  datatype AdbEnv = AdbEnv(
    sdk: SdkLookup,
    vars: map<string, string>,
    userHome: string,
    fs: FileSystem,
    which: WhichRun)

  /** Kotlin's `Char.isWhitespace()`. */
  predicate IsWhitespace(c: char)
  {
    c == ' ' || ('\t' <= c <= '\r') || ('\U{1C}' <= c <= '\U{1F}') || c == '\U{A0}' || c == '\U{1680}'
    || ('\U{2000}' <= c <= '\U{200A}') || c == '\U{2028}' || c == '\U{2029}' || c == '\U{202F}'
    || c == '\U{205F}' || c == '\U{3000}'
  }

  function TrimStart(s: string): (r: string)
    ensures |r| <= |s| && r == s[|s| - |r|..]
    ensures forall k :: 0 <= k < |s| - |r| ==> IsWhitespace(s[k])
    ensures r != [] ==> !IsWhitespace(r[0])
  {
    if s != [] && IsWhitespace(s[0]) then TrimStart(s[1..]) else s
  }

  function TrimEnd(s: string): (r: string)
    ensures |r| <= |s| && r == s[..|r|]
    ensures forall k :: |r| <= k < |s| ==> IsWhitespace(s[k])
    ensures r != [] ==> !IsWhitespace(r[|r| - 1])
  {
    if s != [] && IsWhitespace(s[|s| - 1]) then TrimEnd(s[..|s| - 1]) else s
  }

  /** Kotlin's `String.trim()`: the longest infix without whitespace at either end. */
  function Trim(s: string): (r: string)
    ensures r != [] ==> !IsWhitespace(r[0]) && !IsWhitespace(r[|r| - 1])
  {
    var t := TrimStart(s);
    var r := TrimEnd(t);
    assert r != [] ==> r[0] == t[0];
    r
  }

  /** What `Trim` cuts off, on either side, is whitespace; what it keeps is one infix. */
  lemma TrimKeepsInfix(s: string)
    ensures var r, i := Trim(s), |s| - |TrimStart(s)|;
      i + |r| <= |s| && r == s[i..i + |r|]
      && (forall k :: 0 <= k < i ==> IsWhitespace(s[k]))
      && (forall k :: i + |r| <= k < |s| ==> IsWhitespace(s[k]))
  {
    var t := TrimStart(s);
    var i := |s| - |t|;
    var r := TrimEnd(t);
    assert t == s[i..] && r == t[..|r|];
    forall k | i + |r| <= k < |s|
      ensures IsWhitespace(s[k])
    {
      assert s[k] == t[k - i];
    }
  }

  predicate IsLineTerminator(c: char)
  {
    c == '\n' || c == '\r'
  }

  /** The characters before the first line terminator. */
  function LineOf(s: string): (r: string)
    ensures |r| <= |s| && r == s[..|r|]
    ensures forall k :: 0 <= k < |r| ==> !IsLineTerminator(r[k])
    ensures |r| < |s| ==> IsLineTerminator(s[|r|])
  {
    if s == [] || IsLineTerminator(s[0]) then [] else [s[0]] + LineOf(s[1..])
  }

  /** `BufferedReader.readLine()` on a fresh stream: null at end of input, else the first line. */
  function ReadLine(stdout: string): (r: Option<string>)
    ensures r.None? <==> stdout == []
    ensures r.Some? ==> (|r.value| <= |stdout| && r.value == stdout[..|r.value|]
      && forall k :: 0 <= k < |r.value| ==> !IsLineTerminator(r.value[k]))
    ensures r.Some? && |r.value| < |stdout| ==> IsLineTerminator(stdout[|r.value|])
  {
    if stdout == [] then None else Some(LineOf(stdout))
  }

  /** A candidate path, accepted as its absolute path if it exists. */
  function ExistingFile(fs: FileSystem, path: string): (r: Option<string>)
    ensures r.Some? <==> Exists(fs, path)
    ensures r.Some? ==> r.value in fs.entries && r.value == AbsolutePath(fs, path)
  {
    if Exists(fs, path) then Some(AbsolutePath(fs, path)) else None
  }

  /** Strategy 1: the SDK's adb, if the IDE knows one and it exists. */
  function SdkProbe(env: AdbEnv): (r: Option<string>)
    ensures r.Some? <==> env.sdk.SdkAdb? && Exists(env.fs, env.sdk.file)
    ensures r.Some? ==> r.value in env.fs.entries && r.value == AbsolutePath(env.fs, env.sdk.file)
  {
    match env.sdk
    case SdkAdb(file) => ExistingFile(env.fs, file)
    case _ => None
  }

  /** `System.getenv("ANDROID_HOME") ?: System.getenv("ANDROID_SDK_ROOT")`. */
  function SdkRoot(vars: map<string, string>): Option<string>
  {
    if ANDROID_HOME in vars then Some(vars[ANDROID_HOME])
    else if ANDROID_SDK_ROOT in vars then Some(vars[ANDROID_SDK_ROOT])
    else None
  }

  /** Strategy 2: `platform-tools/adb` under the SDK root named by the environment. */
  function EnvRootProbe(env: AdbEnv): (r: Option<string>)
    ensures r.Some? <==> SdkRoot(env.vars).Some? && Exists(env.fs, Join(SdkRoot(env.vars).value, ADB_IN_SDK))
    ensures r.Some? ==> (r.value in env.fs.entries
      && r.value == AbsolutePath(env.fs, Join(SdkRoot(env.vars).value, ADB_IN_SDK)))
  {
    match SdkRoot(env.vars)
    case None => None
    case Some(root) => ExistingFile(env.fs, Join(root, ADB_IN_SDK))
  }

  /** Strategy 3: the fixed installation paths, in the order they are tried. */
  function CommonPaths(userHome: string): seq<string>
  {
    [userHome + "/Library/Android/sdk/platform-tools/adb", "/usr/local/bin/adb", "/opt/homebrew/bin/adb"]
  }

  /** The first path of `paths` that exists, as an absolute path. */
  function FirstExisting(fs: FileSystem, paths: seq<string>): (r: Option<string>)
    ensures r.None? <==> forall i :: 0 <= i < |paths| ==> !Exists(fs, paths[i])
    ensures r.Some? ==> exists i :: (0 <= i < |paths| && Exists(fs, paths[i]) && r.value == AbsolutePath(fs, paths[i])
      && forall j :: 0 <= j < i ==> !Exists(fs, paths[j]))
  {
    if paths == [] then None
    else if Exists(fs, paths[0]) then Some(AbsolutePath(fs, paths[0]))
    else
      var r := FirstExisting(fs, paths[1..]);
      assert r.Some? ==> exists i :: (0 <= i < |paths| && Exists(fs, paths[i]) && r.value == AbsolutePath(fs, paths[i])
        && forall j :: 0 <= j < i ==> !Exists(fs, paths[j]))
      by {
        if r.Some? {
          var i :| 0 <= i < |paths[1..]| && Exists(fs, paths[1..][i]) && r.value == AbsolutePath(fs, paths[1..][i])
            && forall j :: 0 <= j < i ==> !Exists(fs, paths[1..][j]);
          forall j | 0 <= j < i + 1 ensures !Exists(fs, paths[j]) {
            if j > 0 { assert paths[j] == paths[1..][j - 1]; }
          }
        }
      }
      r
  }

  /** Strategy 4: the first line printed by `which adb`, trimmed, if that line is not empty. */
  function WhichProbe(env: AdbEnv): (r: Option<string>)
    ensures env.which.WhichThrows? ==> r.None?
    ensures r.Some? ==> forall k :: 0 <= k < |r.value| ==> !IsLineTerminator(r.value[k])
    ensures r.Some? && r.value != [] ==> !IsWhitespace(r.value[0]) && !IsWhitespace(r.value[|r.value| - 1])
  {
    match env.which
    case WhichThrows => None
    case WhichOutput(stdout) =>
      match ReadLine(stdout)
      case None => None
      case Some(line) =>
        if line != "" then
          TrimKeepsInfix(line);
          Some(Trim(line))
        else None
  }

  /** The path `getAdbPath` returns; None stands for null. */
  function AdbPath(env: AdbEnv): (r: Option<string>)
  {
    var sdk := SdkProbe(env);
    if sdk.Some? then sdk
    else
      var envRoot := EnvRootProbe(env);
      if envRoot.Some? then envRoot
      else
        var common := FirstExisting(env.fs, CommonPaths(env.userHome));
        if common.Some? then common else WhichProbe(env)
  }

  /** The answer of every single probe, in the order the locator consults them. */
  function Probes(env: AdbEnv): seq<Option<string>>
  {
    [SdkProbe(env), EnvRootProbe(env)] + ProbeEach(env.fs, CommonPaths(env.userHome)) + [WhichProbe(env)]
  }

  /** One existence probe per path, in order. */
  function ProbeEach(fs: FileSystem, paths: seq<string>): (r: seq<Option<string>>)
    ensures |r| == |paths|
  {
    if paths == [] then [] else [ExistingFile(fs, paths[0])] + ProbeEach(fs, paths[1..])
  }

  /** The first probe answer that is a hit. */
  function FirstHit(probes: seq<Option<string>>): Option<string>
  {
    if probes == [] then None else if probes[0].Some? then probes[0] else FirstHit(probes[1..])
  }

  /** Probe `i` hits and no probe before it does. */
  predicate EarliestHit(probes: seq<Option<string>>, i: int)
  {
    0 <= i < |probes| && probes[i].Some? && forall j :: 0 <= j < i ==> probes[j].None?
  }

  /** `FirstHit` is the answer of the earliest probe that hits, and None when none does. */
  lemma {:induction false} FirstHitIsEarliest(probes: seq<Option<string>>)
    ensures FirstHit(probes).None? <==> forall i :: 0 <= i < |probes| ==> probes[i].None?
    ensures FirstHit(probes).Some? ==> exists i :: EarliestHit(probes, i) && probes[i] == FirstHit(probes)
  {
    if probes != [] && probes[0].None? {
      var tail := probes[1..];
      FirstHitIsEarliest(tail);
      assert forall i :: 1 <= i < |probes| ==> probes[i] == tail[i - 1];
      if FirstHit(tail).Some? {
        var i :| EarliestHit(tail, i) && tail[i] == FirstHit(tail);
        assert EarliestHit(probes, i + 1);
      }
    } else if probes != [] {
      assert EarliestHit(probes, 0);
    }
  }

  lemma {:induction false} FirstHitAppend(a: seq<Option<string>>, b: seq<Option<string>>)
    ensures FirstHit(a + b) == if FirstHit(a).Some? then FirstHit(a) else FirstHit(b)
  {
    if a != [] {
      assert (a + b)[1..] == a[1..] + b;
      FirstHitAppend(a[1..], b);
    } else {
      assert a + b == b;
    }
  }

  lemma {:induction false} FirstExistingIsFirstHit(fs: FileSystem, paths: seq<string>)
    ensures FirstExisting(fs, paths) == FirstHit(ProbeEach(fs, paths))
  {
    if paths != [] {
      FirstExistingIsFirstHit(fs, paths[1..]);
    }
  }

  lemma FirstHitOfTwo(a: Option<string>, b: Option<string>)
    ensures FirstHit([a, b]) == if a.Some? then a else b
  {
    assert [a, b][1..] == [b] && [b][1..] == [];
    assert FirstHit([b]) == b;
  }

  /** The chain of early returns is the first hit among the probes, taken in order. */
  lemma AdbPathIsFirstHit(env: AdbEnv)
    ensures AdbPath(env) == FirstHit(Probes(env))
  {
    var front := [SdkProbe(env), EnvRootProbe(env)];
    var common := ProbeEach(env.fs, CommonPaths(env.userHome));
    var which := [WhichProbe(env)];
    FirstHitAppend(front + common, which);
    FirstHitAppend(front, common);
    FirstExistingIsFirstHit(env.fs, CommonPaths(env.userHome));
    FirstHitOfTwo(SdkProbe(env), EnvRootProbe(env));
    assert which[1..] == [];
  }

  /**
   * The locator answers null only when every strategy misses, and every
   * answer that does not come from `which` names a file that exists.
   */
  lemma AdbPathFindsExistingFile(env: AdbEnv)
    ensures AdbPath(env).None? <==> (SdkProbe(env).None? && EnvRootProbe(env).None?
      && FirstExisting(env.fs, CommonPaths(env.userHome)).None? && WhichProbe(env).None?)
    ensures SdkProbe(env).Some? || EnvRootProbe(env).Some? || FirstExisting(env.fs, CommonPaths(env.userHome)).Some?
      ==> AdbPath(env).Some? && AdbPath(env).value in env.fs.entries
  {
  }

  /** The locator answers with the earliest probe that hits, and with null when none does. */
  lemma AdbPathIsEarliestHit(env: AdbEnv)
    ensures var probes := Probes(env);
      (AdbPath(env).None? <==> forall i :: 0 <= i < |probes| ==> probes[i].None?)
      && (AdbPath(env).Some? ==> exists i :: EarliestHit(probes, i) && probes[i] == AdbPath(env))
  {
    AdbPathIsFirstHit(env);
    FirstHitIsEarliest(Probes(env));
  }

  /** Once ANDROID_HOME is set, ANDROID_SDK_ROOT is never consulted, whether or not the adb below ANDROID_HOME exists. */
  lemma AndroidHomeShadowsSdkRoot(env: AdbEnv, sdkRoot: Option<string>)
    requires ANDROID_HOME in env.vars
    ensures var vars := if sdkRoot.Some? then env.vars[ANDROID_SDK_ROOT := sdkRoot.value] else env.vars - {ANDROID_SDK_ROOT};
      EnvRootProbe(env.(vars := vars)) == EnvRootProbe(env) && AdbPath(env.(vars := vars)) == AdbPath(env)
  {
  }

  /** Without ANDROID_HOME, the second strategy looks below ANDROID_SDK_ROOT, if that is set. */
  lemma SdkRootUsedWithoutAndroidHome(env: AdbEnv)
    requires ANDROID_HOME !in env.vars
    ensures EnvRootProbe(env) ==
      if ANDROID_SDK_ROOT in env.vars then ExistingFile(env.fs, Join(env.vars[ANDROID_SDK_ROOT], ADB_IN_SDK)) else None
  {
  }

  /** A line read up to a terminator, or up to the end of the output, is read whole. */
  lemma {:induction false} LineOfStopsAtTerminator(line: string, rest: string)
    requires forall k :: 0 <= k < |line| ==> !IsLineTerminator(line[k])
    requires rest == [] || IsLineTerminator(rest[0])
    ensures LineOf(line + rest) == line
  {
    if line != [] {
      assert (line + rest)[1..] == line[1..] + rest;
      LineOfStopsAtTerminator(line[1..], rest);
    } else {
      assert line + rest == rest;
    }
  }

  /** `which` answers with its first line only, trimmed; the rest of its output is ignored. */
  lemma WhichUsesFirstLineTrimmed(env: AdbEnv, line: string, rest: string)
    requires env.which == WhichOutput(line + rest)
    requires forall k :: 0 <= k < |line| ==> !IsLineTerminator(line[k])
    requires rest == [] || IsLineTerminator(rest[0])
    ensures WhichProbe(env) == if line == "" then None else Some(Trim(line))
  {
    LineOfStopsAtTerminator(line, rest);
  }

  /**
   * A first line of `which` that holds only blanks passes the emptiness test,
   * which is made before trimming, so the locator answers with the empty path.
   */
  lemma BlankWhichLineGivesEmptyPath(env: AdbEnv, line: string, rest: string)
    requires SdkProbe(env).None? && EnvRootProbe(env).None? && FirstExisting(env.fs, CommonPaths(env.userHome)).None?
    requires env.which == WhichOutput(line + rest) && (rest == [] || IsLineTerminator(rest[0]))
    requires line != [] && forall k :: 0 <= k < |line| ==> IsWhitespace(line[k]) && !IsLineTerminator(line[k])
    ensures AdbPath(env) == Some("")
  {
    WhichUsesFirstLineTrimmed(env, line, rest);
    TrimKeepsInfix(line);
  }

  /** `getAdbPath`: the probes run one after the other and the first hit returns at once. */
  method GetAdbPath(env: AdbEnv) returns (path: Option<string>)
    ensures path == AdbPath(env)
  {
    path := SdkProbe(env);
    if path.Some? {
      return;
    }
    path := EnvRootProbe(env);
    if path.Some? {
      return;
    }
    var commonPaths := CommonPaths(env.userHome);
    for i := 0 to |commonPaths|
      invariant FirstExisting(env.fs, commonPaths[i..]) == FirstExisting(env.fs, commonPaths)
    {
      if Exists(env.fs, commonPaths[i]) {
        return Some(AbsolutePath(env.fs, commonPaths[i]));
      }
      assert commonPaths[i..][1..] == commonPaths[i + 1..];
    }
    path := WhichProbe(env);
  }
}
