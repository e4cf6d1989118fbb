/**
 * The launch coordinator: pick the first candidate process that runs the
 * requested app, extract its six fields, persist them, fall back to the stored
 * profile when no process matches, and assemble the Proton command line and
 * environment overlay.
 */
module Handler {
  import opened Text
  import opened Extract
  import opened Config

  /**
   * What the handler reads about one candidate process: its environment with
   * NULs turned into newlines and its command line with NULs turned into
   * spaces. A read that failed leaves "".
   */
  datatype Attributes = Attributes(environ: string, cmdline: string)

  /** How discovery ends. */
  datatype Discovery =
    | Live(profile: Profile)     // a running process matched and was persisted
    | Cached(profile: Profile)   // no process matched; the stored section was used
    | NoPrefix                   // a process matched but had no STEAM_COMPAT_DATA_PATH: exit 1
    | NoProfile                  // no process matched and nothing is stored: exit 1

  /** What the handler does in the end. */
  datatype Exit =
    | Usage                                                                   // too few arguments: exit 0
    | Fatal(reason: Discovery)                                                // exit 1, nothing launched
    | Launch(binary: string, argv: seq<string>, overlay: map<string, string>) // run Proton

  const ProtonVerb := "run"

  // ---------------------------------------------------------------------------
  // Candidate selection

  /**
   * `new Regex(appExe).Match(cmdline).Success`, with `.` as the only operator:
   * the target matches at some position of the command line.
   */
  predicate MatchesTarget(appExe: string, cmdline: string): (b: bool)
    ensures b <==> exists i: nat :: WildAt(cmdline, i, appExe)
  {
    WildFindFrom(cmdline, appExe, 0) <= |cmdline|
  }

  /** A command line that holds appExe literally matches it. */
  lemma LiteralTargetMatches(appExe: string, cmdline: string, i: nat)
    requires PlainPattern(appExe)
    requires IsAt(cmdline, i, appExe)
    ensures MatchesTarget(appExe, cmdline)
  {
    LiteralIsWild(cmdline, i, appExe);
  }

  /** A candidate survives the two `continue`s of the loop: both reads gave text and the command line matches. */
  predicate Survives(c: Attributes, appExe: string): (b: bool)
    ensures b <==> c.environ != "" && c.cmdline != "" && exists i: nat :: WildAt(c.cmdline, i, appExe)
  {
    c.environ != "" && c.cmdline != "" && MatchesTarget(appExe, c.cmdline)
  }

  /** Index of the first surviving candidate, or |cands|. */
  function FirstSurvivor(cands: seq<Attributes>, appExe: string): (k: nat)
    ensures k <= |cands|
    ensures k < |cands| ==> Survives(cands[k], appExe)
    ensures forall j :: 0 <= j < k ==> !Survives(cands[j], appExe)
  {
    if cands == [] then 0
    else if Survives(cands[0], appExe) then 0
    else 1 + FirstSurvivor(cands[1..], appExe)
  }

  /**
   * The six fields of a matching candidate, with the fallback rule: app and
   * Proton path come as a pair, from the environment when both are set there
   * and otherwise both from the command line, even if that leaves them empty.
   * The arguments are read after the chosen app; the other three fields come
   * from the environment.
   */
  function LiveProfile(c: Attributes): (p: Profile)
    ensures var envApp, envProton := AppExeFromEnviron(c.environ), ProtonPathFromEnviron(c.environ);
      && (envApp != "" && envProton != "" ==> p.app == envApp && p.proton == envProton)
      && (envApp == "" || envProton == "" ==>
            p.app == AppExeFromCmdline(c.cmdline) && p.proton == ProtonPathFromCmdline(c.cmdline))
    ensures p.proton == "" || EndsWith(p.proton, ProtonBinary)
    ensures p.args == AppArgs(c.cmdline, p.app)
    ensures p.steamDir == SteamCompatInstallPath(c.environ)
    ensures p.prefixDir == SteamCompatDataPath(c.environ)
    ensures p.dotnetRoot == DotnetRoot(c.environ)
  {
    var envApp := AppExeFromEnviron(c.environ);
    var envProton := ProtonPathFromEnviron(c.environ);
    var app := if |envProton| == 0 || |envApp| == 0 then AppExeFromCmdline(c.cmdline) else envApp;
    var proton := if |envProton| == 0 || |envApp| == 0 then ProtonPathFromCmdline(c.cmdline) else envProton;
    Profile(
      app,
      AppArgs(c.cmdline, app),
      proton,
      SteamCompatInstallPath(c.environ),
      SteamCompatDataPath(c.environ),
      DotnetRoot(c.environ))
  }

  /** The whole discovery pass over the candidates, bwrap processes first, then reaper processes. */
  function Discover(cands: seq<Attributes>, appExe: string, store: Store): (d: Discovery)
    ensures (d.Live? || d.NoPrefix?) <==> exists j :: 0 <= j < |cands| && Survives(cands[j], appExe)
    ensures d.Live? ==>
      && d.profile.prefixDir != ""
      && exists j :: 0 <= j < |cands| && Survives(cands[j], appExe) && d.profile == LiveProfile(cands[j])
    ensures d.Cached? ==> ReadProfile(store, appExe) == Some(d.profile)
    ensures d.NoProfile? ==> ReadProfile(store, appExe).None?
  {
    var k := FirstSurvivor(cands, appExe);
    if k < |cands| then
      var p := LiveProfile(cands[k]);
      if p.prefixDir != "" then Live(p) else NoPrefix
    else
      var cached := ReadProfile(store, appExe);
      if cached.Some? then Cached(cached.value) else NoProfile
  }

  /** The store after discovery: only a live discovery writes, and it writes the six keys of section appExe. */
  function StoreAfter(store: Store, appExe: string, d: Discovery): (r: Store)
    ensures d.Live? ==> ReadProfile(r, appExe) == Some(d.profile)
    ensures !d.Live? ==> r == store
    ensures forall n :: n in store && n != appExe ==> n in r && r[n] == store[n]
  {
    if d.Live? then
      ReadAfterWrite(store, appExe, d.profile);
      WriteProfile(store, appExe, d.profile)
    else store
  }

  /** A candidate that does not survive is skipped: the result is that of the candidates after it. */
  lemma SkipNonSurvivor(c: Attributes, cands: seq<Attributes>, appExe: string, store: Store)
    requires !Survives(c, appExe)
    ensures Discover([c] + cands, appExe, store) == Discover(cands, appExe, store)
  {
    var all := [c] + cands;
    assert all[1..] == cands;
    assert FirstSurvivor(all, appExe) == 1 + FirstSurvivor(cands, appExe);
    var k := FirstSurvivor(cands, appExe);
    if k < |cands| {
      assert all[k + 1] == cands[k];
    }
  }

  lemma {:induction false} FirstSurvivorPrefix(cands: seq<Attributes>, rest: seq<Attributes>, appExe: string)
    requires FirstSurvivor(cands, appExe) < |cands|
    ensures FirstSurvivor(cands + rest, appExe) == FirstSurvivor(cands, appExe)
  {
    if !Survives(cands[0], appExe) {
      assert (cands + rest)[1..] == cands[1..] + rest;
      FirstSurvivorPrefix(cands[1..], rest, appExe);
    }
  }

  /** Only the first surviving candidate is processed: what follows it never matters. */
  lemma FirstSurvivorDecides(cands: seq<Attributes>, rest: seq<Attributes>, appExe: string, store: Store)
    requires exists j :: 0 <= j < |cands| && Survives(cands[j], appExe)
    ensures Discover(cands + rest, appExe, store) == Discover(cands, appExe, store)
  {
    var j :| 0 <= j < |cands| && Survives(cands[j], appExe);
    FirstSurvivorPrefix(cands, rest, appExe);
    var k := FirstSurvivor(cands, appExe);
    assert (cands + rest)[k] == cands[k];
  }

  /**
   * The persistence rule: a live discovery has a non-empty prefix and
   * rewrites the six keys of section appExe and nothing else; every other
   * outcome leaves the store as it was; a cached outcome is the stored
   * section verbatim.
   */
  lemma PersistenceRule(cands: seq<Attributes>, appExe: string, store: Store)
    ensures var d := Discover(cands, appExe, store);
      var after := StoreAfter(store, appExe, d);
      && (d.Live? ==>
            && d.profile.prefixDir != "" && ReadProfile(after, appExe) == Some(d.profile)
            && after.Keys == store.Keys + {appExe}
            && (forall n :: n in store && n != appExe ==> after[n] == store[n]))
      && (!d.Live? ==> after == store)
      && (d.Cached? ==> ReadProfile(store, appExe) == Some(d.profile))
      && (d.NoProfile? ==> ReadProfile(store, appExe).None? && FirstSurvivor(cands, appExe) == |cands|)
  {
    var d := Discover(cands, appExe, store);
    if d.Live? {
      ReadAfterWrite(store, appExe, d.profile);
    }
  }

  /** A run either leaves the store as it was or stores a non-empty STEAM_COMPAT_DATA_PATH for the app. */
  lemma OnlyPrefixedProfilesPersist(cands: seq<Attributes>, appExe: string, store: Store)
    ensures var after := StoreAfter(store, appExe, Discover(cands, appExe, store));
      after == store || (appExe in after && PrefixKey in after[appExe] && after[appExe][PrefixKey] != "")
  {
    var d := Discover(cands, appExe, store);
    if d.Live? {
      ReadAfterWrite(store, appExe, d.profile);
    }
  }

  /** A later run that finds no process reuses exactly the profile that was stored. */
  lemma LiveThenCached(store: Store, appExe: string, p: Profile, later: seq<Attributes>)
    requires FirstSurvivor(later, appExe) == |later|
    ensures Discover(later, appExe, WriteProfile(store, appExe, p)) == Cached(p)
  {
    ReadAfterWrite(store, appExe, p);
  }

  /** A surviving candidate with no survivor before it is the first survivor. */
  lemma FirstSurvivorAt(cands: seq<Attributes>, appExe: string, i: nat)
    requires i < |cands| && Survives(cands[i], appExe)
    requires forall j :: 0 <= j < i ==> !Survives(cands[j], appExe)
    ensures FirstSurvivor(cands, appExe) == i
  {
  }

  /** Discovery processes the first surviving candidate. */
  lemma DiscoverLive(cands: seq<Attributes>, appExe: string, store: Store, i: nat)
    requires i < |cands| && FirstSurvivor(cands, appExe) == i
    ensures var p := LiveProfile(cands[i]);
      Discover(cands, appExe, store) == if p.prefixDir != "" then Live(p) else NoPrefix
  {
  }

  /** The six `config[appExe][key] = value` assignments of a live discovery. */
  method Persist(config: IniConfig, appExe: string,
                 app: string, appArgs: string, proton: string, steamDir: string, prefixDir: string, dotnetRoot: string)
    modifies config
    ensures config.sections ==
      WriteProfile(old(config.sections), appExe, Profile(app, appArgs, proton, steamDir, prefixDir, dotnetRoot))
  {
    ghost var base := old(config.sections);
    config.Set(appExe, AppKey, app);
    ghost var section := SectionOf(base, appExe)[AppKey := app];
    SetAfterReplace(base, appExe, section, ArgsKey, appArgs);
    config.Set(appExe, ArgsKey, appArgs);
    section := section[ArgsKey := appArgs];
    SetAfterReplace(base, appExe, section, ProtonKey, proton);
    config.Set(appExe, ProtonKey, proton);
    section := section[ProtonKey := proton];
    SetAfterReplace(base, appExe, section, SteamDirKey, steamDir);
    config.Set(appExe, SteamDirKey, steamDir);
    section := section[SteamDirKey := steamDir];
    SetAfterReplace(base, appExe, section, PrefixKey, prefixDir);
    config.Set(appExe, PrefixKey, prefixDir);
    section := section[PrefixKey := prefixDir];
    SetAfterReplace(base, appExe, section, DotnetRootKey, dotnetRoot);
    config.Set(appExe, DotnetRootKey, dotnetRoot);
  }

  /** With no surviving candidate, FirstSurvivor runs off the end. */
  lemma NoSurvivor(cands: seq<Attributes>, appExe: string)
    requires forall j :: 0 <= j < |cands| ==> !Survives(cands[j], appExe)
    ensures FirstSurvivor(cands, appExe) == |cands|
  {
  }

  /** `processes`: the bwrap processes copied in first, then the reaper processes after them. */
  method Gather(bwrap: array<Attributes>, reaper: array<Attributes>) returns (processes: array<Attributes>)
    ensures fresh(processes)
    ensures processes[..] == bwrap[..] + reaper[..]
  {
    processes := new Attributes[bwrap.Length + reaper.Length];
    var i := 0;
    while i < bwrap.Length
      invariant 0 <= i <= bwrap.Length
      invariant forall j :: 0 <= j < i ==> processes[j] == bwrap[j]
    {
      processes[i] := bwrap[i];
      i := i + 1;
    }
    i := 0;
    while i < reaper.Length
      invariant 0 <= i <= reaper.Length
      invariant forall j :: 0 <= j < bwrap.Length ==> processes[j] == bwrap[j]
      invariant forall j :: 0 <= j < i ==> processes[bwrap.Length + j] == reaper[j]
    {
      processes[bwrap.Length + i] := reaper[i];
      i := i + 1;
    }
    assert processes[..] == bwrap[..] + reaper[..];
  }

  /**
   * The discovery loop of the handler's entry point and the cache fallback
   * after it. The six locals are reassigned by the first surviving candidate;
   * a non-empty prefix is written into section appExe key by key.
   */
  method Select(processes: array<Attributes>, appExe: string, config: IniConfig) returns (d: Discovery)
    modifies config
    ensures d == Discover(processes[..], appExe, old(config.sections))
    ensures config.sections == StoreAfter(old(config.sections), appExe, d)
  {
    var app, appArgs, proton, steamDir, prefixDir, dotnetRoot := "", "", "", "", "", "";
    var i := 0;
    while i < processes.Length
      invariant 0 <= i <= processes.Length
      invariant forall j :: 0 <= j < i ==> !Survives(processes[j], appExe)
      invariant prefixDir == "" && config.sections == old(config.sections)
    {
      var candidate := processes[i];
      if candidate.environ == "" || candidate.cmdline == "" {
        i := i + 1;
        continue;
      }
      if !MatchesTarget(appExe, candidate.cmdline) {
        i := i + 1;
        continue;
      }
      app := AppExeFromEnviron(candidate.environ);
      proton := ProtonPathFromEnviron(candidate.environ);
      if |proton| == 0 || |app| == 0 {
        app := AppExeFromCmdline(candidate.cmdline);
        proton := ProtonPathFromCmdline(candidate.cmdline);
      }
      appArgs := AppArgs(candidate.cmdline, app);
      steamDir := SteamCompatInstallPath(candidate.environ);
      prefixDir := SteamCompatDataPath(candidate.environ);
      dotnetRoot := DotnetRoot(candidate.environ);
      FirstSurvivorAt(processes[..], appExe, i);
      assert Profile(app, appArgs, proton, steamDir, prefixDir, dotnetRoot) == LiveProfile(processes[i]);
      if prefixDir == "" {
        DiscoverLive(processes[..], appExe, old(config.sections), i);
        return NoPrefix;
      }
      DiscoverLive(processes[..], appExe, old(config.sections), i);
      Persist(config, appExe, app, appArgs, proton, steamDir, prefixDir, dotnetRoot);
      break;
    }
    if prefixDir == "" && config.Get(appExe, PrefixKey).Some? {
      NoSurvivor(processes[..], appExe);
      var s := config.sections[appExe];
      return Cached(Profile(
        ValueOf(s, AppKey),
        ValueOf(s, ArgsKey),
        ValueOf(s, ProtonKey),
        ValueOf(s, SteamDirKey),
        ValueOf(s, PrefixKey),
        ValueOf(s, DotnetRootKey)));
    } else if prefixDir == "" {
      NoSurvivor(processes[..], appExe);
      return NoProfile;
    }
    d := Live(Profile(app, appArgs, proton, steamDir, prefixDir, dotnetRoot));
  }

  // ---------------------------------------------------------------------------
  // Launch assembly

  /** The arguments given to the Proton binary; the app-args slot is left out when empty. */
  function LaunchArgs(app: string, appArgs: string, handlerArgs: seq<string>): (argv: seq<string>)
    ensures |handlerArgs| + 2 <= |argv| && argv[0] == ProtonVerb && argv[1] == app
    ensures argv[|argv| - |handlerArgs|..] == handlerArgs
  {
    if appArgs != "" then [ProtonVerb, app, appArgs] + handlerArgs
    else [ProtonVerb, app] + handlerArgs
  }

  /** Reads an argument list back into app, app-args slot ("" when absent) and pass-through arguments. */
  function ParseLaunchArgs(argv: seq<string>, passThrough: nat): Option<(string, string, seq<string>)>
  {
    if |argv| == 2 + passThrough then Some((argv[1], "", argv[2..]))
    else if |argv| == 3 + passThrough && argv[2] != "" then Some((argv[1], argv[2], argv[3..]))
    else None
  }

  /**
   * The argument list loses nothing and adds no empty slot: the app, its
   * arguments and the pass-through arguments can be read back from it, and
   * its length tells whether the slot is there.
   */
  lemma LaunchArgsRoundTrip(app: string, appArgs: string, handlerArgs: seq<string>)
    ensures ParseLaunchArgs(LaunchArgs(app, appArgs, handlerArgs), |handlerArgs|) == Some((app, appArgs, handlerArgs))
    ensures |LaunchArgs(app, appArgs, handlerArgs)| == |handlerArgs| + (if appArgs == "" then 2 else 3)
  {
    var argv := LaunchArgs(app, appArgs, handlerArgs);
    if appArgs == "" {
      assert argv[2..] == handlerArgs;
    } else {
      assert argv[3..] == handlerArgs;
    }
  }

  /** The three variables set on the child's environment. */
  function Overlay(p: Profile): (env: map<string, string>)
    ensures env.Keys == {DotnetRootKey, SteamDirKey, PrefixKey}
    ensures env[DotnetRootKey] == p.dotnetRoot && env[SteamDirKey] == p.steamDir && env[PrefixKey] == p.prefixDir
  {
    map[DotnetRootKey := p.dotnetRoot, SteamDirKey := p.steamDir, PrefixKey := p.prefixDir]
  }

  /** The child's environment: the overlay merged over the handler's own. */
  function ChildEnvironment(parent: map<string, string>, p: Profile): (env: map<string, string>)
    ensures env.Keys == parent.Keys + {DotnetRootKey, SteamDirKey, PrefixKey}
    ensures forall k :: k in parent && k !in Overlay(p) ==> env[k] == parent[k]
    ensures env[PrefixKey] == p.prefixDir && env[SteamDirKey] == p.steamDir && env[DotnetRootKey] == p.dotnetRoot
  {
    parent + Overlay(p)
  }

  // ---------------------------------------------------------------------------
  // The whole run

  /** What a run does, given its arguments, the candidates and the stored profiles. */
  function Plan(args: seq<string>, cands: seq<Attributes>, store: Store): (r: Exit)
    ensures |args| < 2 <==> r == Usage
    ensures r.Fatal? <==>
      |args| >= 2 && (Discover(cands, args[0], store).NoPrefix? || Discover(cands, args[0], store).NoProfile?)
    ensures r.Launch? ==>
      var d := Discover(cands, args[0], store);
      && r.binary == d.profile.proton
      && ParseLaunchArgs(r.argv, |args| - 1) == Some((d.profile.app, d.profile.args, args[1..]))
      && r.overlay.Keys == {DotnetRootKey, SteamDirKey, PrefixKey}
      && r.overlay[PrefixKey] == d.profile.prefixDir
  {
    if |args| < 2 then Usage
    else
      var d := Discover(cands, args[0], store);
      if d.Live? || d.Cached? then
        LaunchArgsRoundTrip(d.profile.app, d.profile.args, args[1..]);
        Launch(d.profile.proton, LaunchArgs(d.profile.app, d.profile.args, args[1..]), Overlay(d.profile))
      else Fatal(d)
  }

  /**
   * The handler's entry point, from the argument check to the launch
   * request. The process lists and the parsed configuration are inputs; the
   * launch itself is the returned request.
   */
  method Run(args: seq<string>, bwrap: array<Attributes>, reaper: array<Attributes>, config: IniConfig)
    returns (r: Exit)
    modifies config
    ensures r == Plan(args, bwrap[..] + reaper[..], old(config.sections))
    ensures |args| < 2 ==> config.sections == old(config.sections)
    ensures |args| >= 2 ==>
      config.sections == StoreAfter(old(config.sections), args[0], Discover(bwrap[..] + reaper[..], args[0], old(config.sections)))
  {
    if |args| < 2 {
      return Usage;
    }
    var appExe := args[0];
    var handlerArgs := args[1..];
    var processes := Gather(bwrap, reaper);
    var d := Select(processes, appExe, config);
    if d.Live? || d.Cached? {
      var p := d.profile;
      r := Launch(p.proton, LaunchArgs(p.app, p.args, handlerArgs), Overlay(p));
    } else {
      r := Fatal(d);
    }
  }
}
