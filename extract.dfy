/**
 * Field extraction from the text of one candidate process.
 *
 * The environment text has one KEY=VALUE entry per line; the command line is
 * its arguments joined by spaces. Every pattern of the handler is applied line
 * by line to the text split on '\n', and the capture of the first line that
 * matches is the field; a field no line matches is "". Each regular expression
 * is modelled by the exact result its backtracking search produces: the
 * leftmost start position that leads to a match wins, an optional group is
 * tried before it is skipped, and a greedy `.*` ends as late as it can.
 */
module Extract {
  import opened Text

  const Newline := '\n'

  // The literal part of each environment pattern `KEY=(.*)$`.
  const ProtonPathPrefix := "PROTONPATH="
  const SteamCompatInstallPathPrefix := "STEAM_COMPAT_INSTALL_PATH="
  const SteamCompatDataPathPrefix := "STEAM_COMPAT_DATA_PATH="
  const DotnetRootPrefix := "DOTNET_ROOT="
  const AppExePrefix := "EXE="

  // The literal parts of `-- (.* container-runtime)? (.*/proton) `.
  const Separator := "-- "
  const ContainerRuntime := " container-runtime "
  const ProtonBinary := "/proton"

  // The literal parts of `proton (waitforexitand)?run (.*\.exe)`.
  const RunVerb := "proton run "
  const WaitRunVerb := "proton waitforexitandrun "
  const ExeSuffix := ".exe"

  /** One pattern applied to one line: the capture group its caller reads, or None when the line does not match. */
  type LineMatch = string -> Option<string>

  function Lines(s: string): seq<string>
  {
    Split(s, Newline)
  }

  /** The capture of the first line the pattern matches, or "" when it matches none. */
  function FirstCapture(m: LineMatch, lines: seq<string>): (r: string)
    ensures r == "" || exists k :: 0 <= k < |lines| && m(lines[k]) == Some(r)
  {
    if lines == [] then ""
    else if m(lines[0]).Some? then m(lines[0]).value
    else FirstCapture(m, lines[1..])
  }

  /** The first matching line decides, whatever the lines after it hold. */
  lemma {:induction false} FirstCaptureAt(m: LineMatch, lines: seq<string>, k: nat)
    requires k < |lines| && m(lines[k]).Some?
    requires forall j :: 0 <= j < k ==> m(lines[j]).None?
    ensures FirstCapture(m, lines) == m(lines[k]).value
  {
    if k > 0 {
      assert forall j :: 0 <= j < k - 1 ==> lines[1..][j] == lines[j + 1];
      FirstCaptureAt(m, lines[1..], k - 1);
    }
  }

  /** A pattern that matches no line yields "". */
  lemma {:induction false} FirstCaptureNone(m: LineMatch, lines: seq<string>)
    requires forall j :: 0 <= j < |lines| ==> m(lines[j]).None?
    ensures FirstCapture(m, lines) == ""
  {
    if lines != [] {
      assert forall j :: 0 <= j < |lines| - 1 ==> lines[1..][j] == lines[j + 1];
      FirstCaptureNone(m, lines[1..]);
    }
  }

  /** The loop of FirstCaptureGroup and SecondCaptureGroup: split on '\n', return the capture of the first line that matches. */
  method ScanLines(m: LineMatch, s: string) returns (r: string)
    ensures r == FirstCapture(m, Lines(s))
  {
    var lines := Lines(s);
    var i := 0;
    while i < |lines|
      invariant i <= |lines|
      invariant FirstCapture(m, lines[i..]) == FirstCapture(m, lines)
    {
      var found := m(lines[i]);
      if found.Some? {
        return found.value;
      }
      assert lines[i..][1..] == lines[i + 1..];
      i := i + 1;
    }
    return "";
  }

  // ---------------------------------------------------------------------------
  // Environment patterns `KEY=(.*)$`

  /** `KEY=(.*)$` on one line: the rest of the line after the leftmost `KEY=`. */
  function AfterKey(key: string, line: string): (r: Option<string>)
    ensures r.Some? <==> Contains(line, key)
    ensures r.Some? ==> |key| + |r.value| <= |line| && IsAt(line, |line| - |r.value| - |key|, key + r.value)
  {
    var i := FindFrom(line, key, 0);
    if i <= |line| then
      assert line[i..] == line[i..i + |key|] + line[i + |key|..];
      Some(line[i + |key|..])
    else
      None
  }

  /** The leftmost occurrence of the key decides the value. */
  lemma AfterKeyLeftmost(key: string, line: string, i: nat)
    requires IsAt(line, i, key)
    requires forall j :: 0 <= j < i ==> !IsAt(line, j, key)
    ensures AfterKey(key, line) == Some(line[i + |key|..])
  {
  }

  /**
   * FirstCaptureGroup with the pattern `KEY=(.*)$`: a non-empty value stands
   * right after its key in the environment text and runs to the end of a line.
   */
  function EnvValue(key: string, environ: string): (r: string)
    ensures r == "" || (Contains(environ, key + r) && Newline !in r)
  {
    AfterKeyCaptureOccurs(key, environ);
    FirstCapture(line => AfterKey(key, line), Lines(environ))
  }

  /**
   * The value is the text after the leftmost `KEY=` on the first line that
   * holds `KEY=` at all.
   */
  lemma EnvValueOfFirstLine(key: string, environ: string, k: nat, i: nat)
    requires k < |Lines(environ)|
    requires forall l :: 0 <= l < k ==> !Contains(Lines(environ)[l], key)
    requires IsAt(Lines(environ)[k], i, key)
    requires forall j :: 0 <= j < i ==> !IsAt(Lines(environ)[k], j, key)
    ensures EnvValue(key, environ) == Lines(environ)[k][i + |key|..]
  {
    var m: LineMatch := line => AfterKey(key, line);
    AfterKeyLeftmost(key, Lines(environ)[k], i);
    FirstCaptureAt(m, Lines(environ), k);
  }

  /** No line holds `KEY=`: the value is "". */
  lemma EnvValueAbsent(key: string, environ: string)
    requires forall l :: 0 <= l < |Lines(environ)| ==> !Contains(Lines(environ)[l], key)
    ensures EnvValue(key, environ) == ""
  {
    var m: LineMatch := line => AfterKey(key, line);
    FirstCaptureNone(m, Lines(environ));
  }

  lemma AfterKeyCaptureOccurs(key: string, environ: string)
    ensures var r := FirstCapture(line => AfterKey(key, line), Lines(environ));
      r == "" || (Contains(environ, key + r) && Newline !in r)
  {
    var m: LineMatch := line => AfterKey(key, line);
    var lines := Lines(environ);
    var r := FirstCapture(m, lines);
    if r != "" {
      var k :| 0 <= k < |lines| && m(lines[k]) == Some(r);
      var line := lines[k];
      assert IsAt(line, |line| - |r| - |key|, key + r);
      PieceOccurs(environ, Newline, k, |line| - |r| - |key|, key + r);
      assert r == line[|line| - |r|..];
    }
  }

  function SteamCompatInstallPath(environ: string): (r: string)
    ensures r == "" || (Contains(environ, SteamCompatInstallPathPrefix + r) && Newline !in r)
  {
    EnvValue(SteamCompatInstallPathPrefix, environ)
  }

  function SteamCompatDataPath(environ: string): (r: string)
    ensures r == "" || (Contains(environ, SteamCompatDataPathPrefix + r) && Newline !in r)
  {
    EnvValue(SteamCompatDataPathPrefix, environ)
  }

  function DotnetRoot(environ: string): (r: string)
    ensures r == "" || (Contains(environ, DotnetRootPrefix + r) && Newline !in r)
  {
    EnvValue(DotnetRootPrefix, environ)
  }

  function AppExeFromEnviron(environ: string): (r: string)
    ensures r == "" || (Contains(environ, AppExePrefix + r) && Newline !in r)
  {
    EnvValue(AppExePrefix, environ)
  }

  /** The captured directory with the binary name appended, or "" when the capture is empty. */
  function ProtonPathFromEnviron(environ: string): (r: string)
    ensures r == "" || (EndsWith(r, ProtonBinary) && Contains(environ, ProtonPathPrefix + r[..|r| - |ProtonBinary|]))
    ensures r == "" || |r| > |ProtonBinary|
  {
    var dir := EnvValue(ProtonPathPrefix, environ);
    if dir != "" then
      assert (dir + ProtonBinary)[..|dir|] == dir;
      dir + ProtonBinary
    else ""
  }

  /** An environment whose first `PROTONPATH=` line is `PROTONPATH=<dir>` with a non-empty dir gives `<dir>/proton`. */
  lemma ProtonPathFromEnvironLine(environ: string, k: nat, dir: string)
    requires k < |Lines(environ)| && Lines(environ)[k] == ProtonPathPrefix + dir && dir != ""
    requires forall l :: 0 <= l < k ==> !Contains(Lines(environ)[l], ProtonPathPrefix)
    ensures ProtonPathFromEnviron(environ) == dir + ProtonBinary
  {
    assert IsAt(Lines(environ)[k], 0, ProtonPathPrefix);
    EnvValueOfFirstLine(ProtonPathPrefix, environ, k, 0);
    assert Lines(environ)[k][|ProtonPathPrefix|..] == dir;
  }

  // ---------------------------------------------------------------------------
  // Command-line pattern `-- (.* container-runtime)? (.*/proton) `, group 2

  /** A Proton path as the command-line pattern captures it: ends in /proton and stands before a space. */
  ghost predicate ProtonShape(line: string, v: string)
  {
    EndsWith(v, ProtonBinary) && Contains(line, v + " ")
  }

  /** Group 2 from index j: its greedy dot-star stops at the last "/proton" that a space follows. */
  function ProtonGroupFrom(line: string, j: nat): (r: Option<string>)
    ensures r.Some? ==> IsAt(line, j, r.value + " ") && EndsWith(r.value, ProtonBinary)
    ensures r.Some? ==> forall q :: j + |r.value| - |ProtonBinary| < q <= |line| ==> !IsAt(line, q, ProtonBinary + " ")
    ensures r.None? ==> forall q :: j <= q <= |line| ==> !IsAt(line, q, ProtonBinary + " ")
  {
    if j > |line| then None
    else
      var q := FindLast(line, ProtonBinary + " ", j, |line| + 1);
      if q.Some? then
        var e := q.value + |ProtonBinary|;
        var v := line[j..e];
        assert line[q.value..e + 1] == ProtonBinary + " ";
        assert line[j..e + 1] == v + line[q.value..e + 1][|ProtonBinary|..];
        assert v[|v| - |ProtonBinary|..] == line[q.value..e];
        Some(v)
      else None
  }

  lemma ProtonGroupFromFinds(line: string, j: nat, q: nat)
    requires j <= q && IsAt(line, q, ProtonBinary + " ")
    ensures ProtonGroupFrom(line, j).Some?
  {
  }

  /** The branch in which `(.* container-runtime)` takes part, its dot-star ending before `hi`; longest first. */
  function ContainerBranch(line: string, j: nat, hi: nat): (r: Option<string>)
    requires j <= hi
    ensures r.Some? ==> ProtonShape(line, r.value)
    ensures r.Some? ==> exists a: nat :: j <= a && IsAt(line, a, ContainerRuntime + (r.value + " "))
    decreases hi
  {
    var a := FindLast(line, ContainerRuntime, j, hi);
    if a.None? then None
    else
      var g := ProtonGroupFrom(line, a.value + |ContainerRuntime|);
      if g.Some? then
        IsAtConcat(line, a.value, ContainerRuntime, g.value + " ");
        g
      else ContainerBranch(line, j, a.value)
  }

  lemma {:induction false} ContainerBranchFinds(line: string, j: nat, hi: nat, a: nat)
    requires j <= a < hi && IsAt(line, a, ContainerRuntime)
    requires ProtonGroupFrom(line, a + |ContainerRuntime|).Some?
    ensures ContainerBranch(line, j, hi).Some?
    decreases hi
  {
    var last := FindLast(line, ContainerRuntime, j, hi);
    if ProtonGroupFrom(line, last.value + |ContainerRuntime|).None? {
      ContainerBranchFinds(line, j, last.value, a);
    }
  }

  /** The whole pattern tried at start position i: with the optional group first, then without it. */
  function ProtonMatchAt(line: string, i: nat): (r: Option<string>)
    ensures r.Some? ==> ProtonShape(line, r.value)
  {
    if !IsAt(line, i, Separator) then None
    else
      var withGroup := ContainerBranch(line, i + |Separator|, |line| + 1);
      if withGroup.Some? then withGroup
      else if IsAt(line, i + |Separator|, " ") then ProtonGroupFrom(line, i + |Separator| + 1)
      else None
  }

  /** `Regex.Match` on one line from start position i on: the leftmost start that matches. */
  function ProtonMatchFrom(line: string, i: nat): (r: Option<string>)
    ensures r.Some? ==> ProtonShape(line, r.value)
    decreases |line| + 1 - i
  {
    if i > |line| then None
    else if ProtonMatchAt(line, i).Some? then ProtonMatchAt(line, i)
    else ProtonMatchFrom(line, i + 1)
  }

  lemma {:induction false} ProtonMatchFromFinds(line: string, i: nat, at: nat)
    requires i <= at <= |line| && ProtonMatchAt(line, at).Some?
    ensures ProtonMatchFrom(line, i).Some?
    decreases at - i
  {
    if ProtonMatchAt(line, i).None? {
      ProtonMatchFromFinds(line, i + 1, at);
    }
  }

  /** The leftmost start at which the pattern matches decides the capture. */
  lemma {:induction false} ProtonMatchFromLeftmost(line: string, i: nat, k: nat)
    requires i <= k <= |line| && ProtonMatchAt(line, k).Some?
    requires forall j :: i <= j < k ==> ProtonMatchAt(line, j).None?
    ensures ProtonMatchFrom(line, i) == ProtonMatchAt(line, k)
    decreases k - i
  {
    if i < k {
      ProtonMatchFromLeftmost(line, i + 1, k);
    }
  }

  /** The command-line Proton pattern matched against one line. */
  function CmdlineProtonMatch(line: string): (r: Option<string>)
    ensures r.Some? ==> ProtonShape(line, r.value)
  {
    ProtonMatchFrom(line, 0)
  }

  /** SecondCaptureGroup with the command-line Proton pattern. */
  function ProtonPathFromCmdline(cmdline: string): (r: string)
    ensures r == "" || (EndsWith(r, ProtonBinary) && Contains(cmdline, r + " "))
  {
    var lines := Lines(cmdline);
    var r := FirstCapture(CmdlineProtonMatch, lines);
    if r == "" then r
    else
      ProtonCaptureOccurs(cmdline, r);
      r
  }

  lemma ProtonCaptureOccurs(cmdline: string, r: string)
    requires exists k :: 0 <= k < |Lines(cmdline)| && CmdlineProtonMatch(Lines(cmdline)[k]) == Some(r)
    ensures EndsWith(r, ProtonBinary) && Contains(cmdline, r + " ")
  {
    var lines := Lines(cmdline);
    var k :| 0 <= k < |lines| && CmdlineProtonMatch(lines[k]) == Some(r);
    var i: nat :| IsAt(lines[k], i, r + " ");
    PieceOccurs(cmdline, Newline, k, i, r + " ");
  }

  /** Some line matches, so the capture of the first matching line is the result. */
  lemma {:induction false} FirstMatchingLine(m: LineMatch, lines: seq<string>, k: nat)
    requires k < |lines| && m(lines[k]).Some?
    ensures exists j :: 0 <= j <= k && m(lines[j]).Some? && FirstCapture(m, lines) == m(lines[j]).value
  {
    if m(lines[0]).None? {
      assert lines[1..][k - 1] == lines[k];
      FirstMatchingLine(m, lines[1..], k - 1);
      var j :| 0 <= j <= k - 1 && m(lines[1..][j]).Some? && FirstCapture(m, lines[1..]) == m(lines[1..][j]).value;
      assert lines[1..][j] == lines[j + 1];
    }
  }

  /**
   * When the optional group can take part it does: the capture then stands
   * right after a " container-runtime " that follows the "-- ".
   */
  lemma ProtonMatchAtFinds(line: string, i: nat, a: nat, q: nat)
    requires IsAt(line, i, Separator)
    requires i + |Separator| <= a && IsAt(line, a, ContainerRuntime)
    requires a + |ContainerRuntime| <= q && IsAt(line, q, ProtonBinary + " ")
    ensures i <= |line| && ProtonMatchAt(line, i).Some?
    ensures exists b: nat :: i + |Separator| <= b && IsAt(line, b, ContainerRuntime + (ProtonMatchAt(line, i).value + " "))
  {
    ProtonGroupFromFinds(line, a + |ContainerRuntime|, q);
    assert a < |line| + 1;
    ContainerBranchFinds(line, i + |Separator|, |line| + 1, a);
    var withGroup := ContainerBranch(line, i + |Separator|, |line| + 1);
    assert ProtonMatchAt(line, i) == withGroup;
  }

  /**
   * The container-runtime form is found: a line holding "-- ", later
   * " container-runtime ", and later a path ending in "/proton" followed by a
   * space yields a non-empty Proton path.
   */
  lemma ProtonPathFromCmdlineFinds(cmdline: string, k: nat, i: nat, a: nat, q: nat)
    requires k < |Lines(cmdline)|
    requires IsAt(Lines(cmdline)[k], i, Separator)
    requires i + |Separator| <= a && IsAt(Lines(cmdline)[k], a, ContainerRuntime)
    requires a + |ContainerRuntime| <= q && IsAt(Lines(cmdline)[k], q, ProtonBinary + " ")
    ensures ProtonPathFromCmdline(cmdline) != ""
  {
    var lines := Lines(cmdline);
    var line := lines[k];
    ProtonMatchAtFinds(line, i, a, q);
    ProtonMatchFromFinds(line, 0, i);
    assert CmdlineProtonMatch(line).Some?;
    FirstMatchingLine(CmdlineProtonMatch, lines, k);
    var j :| 0 <= j <= k && CmdlineProtonMatch(lines[j]).Some?
      && FirstCapture(CmdlineProtonMatch, lines) == CmdlineProtonMatch(lines[j]).value;
    assert EndsWith(CmdlineProtonMatch(lines[j]).value, ProtonBinary);
  }

  // ---------------------------------------------------------------------------
  // Command-line pattern `proton (waitforexitand)?run (.*\.exe)`, group 2

  /** Group 2 from index j: its greedy dot-star stops at the last ".exe" of the line. */
  function ExeGroupFrom(line: string, j: nat): (r: Option<string>)
    ensures r.Some? ==> IsAt(line, j, r.value) && EndsWith(r.value, ExeSuffix)
    ensures r.Some? ==> forall q :: j + |r.value| - |ExeSuffix| < q <= |line| ==> !IsAt(line, q, ExeSuffix)
    ensures r.None? ==> forall q :: j <= q <= |line| ==> !IsAt(line, q, ExeSuffix)
  {
    if j > |line| then None
    else
      var q := FindLast(line, ExeSuffix, j, |line| + 1);
      if q.Some? then
        var v := line[j..q.value + |ExeSuffix|];
        assert v[|v| - |ExeSuffix|..] == line[q.value..q.value + |ExeSuffix|];
        Some(v)
      else None
  }

  /** The whole pattern tried at start position i: with `waitforexitand` first, then without it. */
  function ExeMatchAt(line: string, i: nat): (r: Option<string>)
    ensures r.Some? ==> EndsWith(r.value, ExeSuffix)
    ensures r.Some? ==> IsAt(line, i, RunVerb + r.value) || IsAt(line, i, WaitRunVerb + r.value)
  {
    var waited := if IsAt(line, i, WaitRunVerb) then ExeGroupFrom(line, i + |WaitRunVerb|) else None;
    if waited.Some? then
      IsAtConcat(line, i, WaitRunVerb, waited.value);
      waited
    else if IsAt(line, i, RunVerb) then
      var plain := ExeGroupFrom(line, i + |RunVerb|);
      if plain.Some? then
        IsAtConcat(line, i, RunVerb, plain.value);
        plain
      else None
    else None
  }

  /** `Regex.Match` on one line from start position i on: the leftmost start that matches. */
  function ExeMatchFrom(line: string, i: nat): (r: Option<string>)
    ensures r.Some? ==> EndsWith(r.value, ExeSuffix)
    ensures r.Some? ==> Contains(line, RunVerb + r.value) || Contains(line, WaitRunVerb + r.value)
    decreases |line| + 1 - i
  {
    if i > |line| then None
    else if ExeMatchAt(line, i).Some? then ExeMatchAt(line, i)
    else ExeMatchFrom(line, i + 1)
  }

  lemma {:induction false} ExeMatchFromFinds(line: string, i: nat, at: nat)
    requires i <= at <= |line| && ExeMatchAt(line, at).Some?
    ensures ExeMatchFrom(line, i).Some?
    decreases at - i
  {
    if ExeMatchAt(line, i).None? {
      ExeMatchFromFinds(line, i + 1, at);
    }
  }

  /** The leftmost start at which the pattern matches decides the capture. */
  lemma {:induction false} ExeMatchFromLeftmost(line: string, i: nat, k: nat)
    requires i <= k <= |line| && ExeMatchAt(line, k).Some?
    requires forall j :: i <= j < k ==> ExeMatchAt(line, j).None?
    ensures ExeMatchFrom(line, i) == ExeMatchAt(line, k)
    decreases k - i
  {
    if i < k {
      ExeMatchFromLeftmost(line, i + 1, k);
    }
  }

  /** The command-line app pattern matched against one line. */
  function CmdlineExeMatch(line: string): (r: Option<string>)
    ensures r.Some? ==> EndsWith(r.value, ExeSuffix)
    ensures r.Some? ==> Contains(line, RunVerb + r.value) || Contains(line, WaitRunVerb + r.value)
  {
    ExeMatchFrom(line, 0)
  }

  /** SecondCaptureGroup with the command-line app pattern. */
  function AppExeFromCmdline(cmdline: string): (r: string)
    ensures r == "" || EndsWith(r, ExeSuffix)
    ensures r == "" || Contains(cmdline, RunVerb + r) || Contains(cmdline, WaitRunVerb + r)
  {
    var lines := Lines(cmdline);
    var r := FirstCapture(CmdlineExeMatch, lines);
    if r == "" then r
    else
      ExeCaptureOccurs(cmdline, r);
      r
  }

  lemma ExeCaptureOccurs(cmdline: string, r: string)
    requires exists k :: 0 <= k < |Lines(cmdline)| && CmdlineExeMatch(Lines(cmdline)[k]) == Some(r)
    ensures EndsWith(r, ExeSuffix)
    ensures Contains(cmdline, RunVerb + r) || Contains(cmdline, WaitRunVerb + r)
  {
    var lines := Lines(cmdline);
    var k :| 0 <= k < |lines| && CmdlineExeMatch(lines[k]) == Some(r);
    if Contains(lines[k], RunVerb + r) {
      var i: nat :| IsAt(lines[k], i, RunVerb + r);
      PieceOccurs(cmdline, Newline, k, i, RunVerb + r);
    } else {
      var i: nat :| IsAt(lines[k], i, WaitRunVerb + r);
      PieceOccurs(cmdline, Newline, k, i, WaitRunVerb + r);
    }
  }

  /** A line holding "proton run " and, later, ".exe" yields a non-empty app path. */
  lemma AppExeFromCmdlineFinds(cmdline: string, k: nat, i: nat, q: nat)
    requires k < |Lines(cmdline)|
    requires IsAt(Lines(cmdline)[k], i, RunVerb)
    requires i + |RunVerb| <= q && IsAt(Lines(cmdline)[k], q, ExeSuffix)
    ensures AppExeFromCmdline(cmdline) != ""
  {
    var lines := Lines(cmdline);
    var line := lines[k];
    assert ExeGroupFrom(line, i + |RunVerb|).Some?;
    assert ExeMatchAt(line, i).Some?;
    ExeMatchFromFinds(line, 0, i);
    FirstMatchingLine(CmdlineExeMatch, lines, k);
  }

  // ---------------------------------------------------------------------------
  // AppArgs: `exe + " (.*)$"`, group 1, trimmed

  /** Where `exe` followed by a space matches, with `.` in `exe` standing for any character. */
  predicate ArgsAnchor(line: string, exe: string, i: nat)
  {
    WildAt(line, i, exe) && IsAt(line, i + |exe|, " ")
  }

  /** The least anchor position j >= i, or |line| + 1 when there is none. */
  function ArgsAnchorFrom(line: string, exe: string, i: nat): (k: nat)
    requires i <= |line| + 1
    ensures i <= k <= |line| + 1
    ensures k <= |line| ==> ArgsAnchor(line, exe, k)
    ensures forall j :: i <= j < k ==> !ArgsAnchor(line, exe, j)
    decreases |line| + 1 - i
  {
    if i == |line| + 1 then i
    else if ArgsAnchor(line, exe, i) then i
    else ArgsAnchorFrom(line, exe, i + 1)
  }

  /** `exe (.*)$` on one line: the rest of the line after the leftmost anchor. */
  function ArgsAfter(exe: string, line: string): (r: Option<string>)
    ensures r.Some? <==> exists i: nat :: ArgsAnchor(line, exe, i)
  {
    var i := ArgsAnchorFrom(line, exe, 0);
    if i <= |line| then Some(line[i + |exe| + 1..]) else None
  }

  /** AppArgs: FirstCaptureGroup with the pattern `exe (.*)$`, trimmed. */
  function AppArgs(cmdline: string, exe: string): (r: string)
    ensures r == "" || (!IsSpace(r[0]) && !IsSpace(r[|r| - 1]))
  {
    Trim(FirstCapture(line => ArgsAfter(exe, line), Lines(cmdline)))
  }

  /** The arguments are the trimmed rest of the first line that holds `exe `, after its leftmost occurrence. */
  lemma AppArgsOfFirstLine(cmdline: string, exe: string, k: nat, i: nat)
    requires PlainPattern(exe)
    requires k < |Lines(cmdline)|
    requires forall l, j :: 0 <= l < k ==> !ArgsAnchor(Lines(cmdline)[l], exe, j)
    requires ArgsAnchor(Lines(cmdline)[k], exe, i)
    requires forall j :: 0 <= j < i ==> !ArgsAnchor(Lines(cmdline)[k], exe, j)
    ensures AppArgs(cmdline, exe) == Trim(Lines(cmdline)[k][i + |exe| + 1..])
  {
    var lines := Lines(cmdline);
    var m: LineMatch := line => ArgsAfter(exe, line);
    forall l | 0 <= l < k
      ensures m(lines[l]).None?
    {
      assert ArgsAnchorFrom(lines[l], exe, 0) == |lines[l]| + 1;
    }
    assert ArgsAnchorFrom(lines[k], exe, 0) == i;
    assert m(lines[k]) == Some(lines[k][i + |exe| + 1..]);
    FirstCaptureAt(m, lines, k);
  }

  /** No line holds `exe ` anywhere: the arguments are "". */
  lemma AppArgsAbsent(cmdline: string, exe: string)
    requires PlainPattern(exe)
    requires forall l, j :: 0 <= l < |Lines(cmdline)| ==> !ArgsAnchor(Lines(cmdline)[l], exe, j)
    ensures AppArgs(cmdline, exe) == ""
  {
    var lines := Lines(cmdline);
    var m: LineMatch := line => ArgsAfter(exe, line);
    forall l | 0 <= l < |lines|
      ensures m(lines[l]).None?
    {
      assert ArgsAnchorFrom(lines[l], exe, 0) == |lines[l]| + 1;
    }
    FirstCaptureNone(m, lines);
  }
}
