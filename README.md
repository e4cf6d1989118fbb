# proton-handler, modelled in Dafny

proton-handler is a URL/protocol handler for apps that run under Steam's
Proton. It is called as `proton-handler <App.exe> <args…>`. It looks for a
running Proton container that hosts `<App.exe>` among the `srt-bwrap`
processes and then the `reaper` processes. From that process's environment
and command line it recovers six fields:

- the app path;
- the app's own arguments;
- the Proton binary;
- the Steam install directory;
- the compatibility-data prefix;
- `DOTNET_ROOT`.

When the prefix is known, it stores these six fields in section `<App.exe>`
of an INI file. When no process matches, it reuses that stored section. It
then launches `<proton> run <app> [<app args>] <args…>` with three
environment variables set.

The model has four modules.

- `Text` (text.dfy) holds the string primitives:
  - substring search;
  - `String.Split` on one character, with its inverse `Join`;
  - `String.Trim`;
  - the "`.` matches any character" matching used for the target name.
- `Extract` (extract.dfy) holds the field extraction. It models the line
  scanners `FirstCaptureGroup`/`SecondCaptureGroup` as a recursive
  specification `FirstCapture` and a loop `ScanLines` proved equal to it. It
  also models the eight extractor helpers. No general regex engine is
  modelled. Instead, each of the handler's patterns is modelled by the exact
  result that the backtracking search produces:
  - the leftmost start position that leads to a match wins;
  - an optional group is tried before it is skipped;
  - a greedy `.*` ends as late as it can.
- `Config` (config.dfy) holds the stored profiles: a map from section name to
  a map from key to value. It has the six-key write and the cached read. The
  parsed INI data is the class `IniConfig`, whose `Set` is
  `config[section][key] = value`.
- `Handler` (handler.dfy) holds the entry point:
  - candidate gathering, where `Gather` models the two `CopyTo` calls;
  - the discovery loop, where `Select` is the `foreach` with its `continue`s
    and `break`, the six assignments and the cache fallback;
  - the launch request, where `Run` covers the argument check through the
    launch.

  Each method is proved against a specification function. `Discover` and
  `StoreAfter` give the discovery outcome and the new store. `Plan` gives the
  whole run's outcome, which is usage exit, fatal exit or launch request.

A read of `/proc/<pid>/environ` or `/proc/<pid>/cmdline` is an input string.
NULs are already replaced by `'\n'` in the environment and by spaces in the
command line. A failed read is "", which is what the handler's empty buffer
holds after a caught exception.

The command-line Proton pattern is `-- (.* container-runtime)? (.*/proton) `.
It is followed as written. It needs a space before `container-runtime`, or two
spaces after `--` when the optional group is skipped. A command line such as
`-- /x/container-runtime /y/proton run /z/App.exe` yields no Proton path from
it. The environment patterns `KEY=(.*)$` match `KEY=` anywhere in a line, so
`FOO_EXE=x` also yields `x` for `EXE`. The model follows that too.

## Model

| member | source | states |
|---|---|---|
| Text.Split | proton-handler/proton-handler.cs:28 | `Split(s, '\n')` gives at least one piece and no piece holds the separator |
| Text.JoinSplit | proton-handler/proton-handler.cs:28 | splitting loses nothing: joining the pieces with the separator gives the text back |
| Text.PieceOccurs | proton-handler/proton-handler.cs:28 | whatever occurs inside one line of a split text occurs in the whole text |
| Text.Trim | proton-handler/proton-handler.cs:139 | the result neither starts nor ends with whitespace and sits in the input between a blank prefix and a blank suffix |
| Text.LiteralIsWild | proton-handler/proton-handler.cs:189 | a literal occurrence of a pattern is a match of it with `.` as the wildcard |
| Extract.FirstCapture | proton-handler/proton-handler.cs:26-52 | the result is "" or the capture of some line the pattern matches |
| Extract.FirstCaptureAt | proton-handler/proton-handler.cs:26-52 | the first matching line decides the result, whatever follows it |
| Extract.FirstCaptureNone | proton-handler/proton-handler.cs:26-52 | when no line matches the result is "" |
| Extract.FirstMatchingLine | proton-handler/proton-handler.cs:26-52 | when some line matches, the result is the capture of a matching line at or before it |
| Extract.ScanLines | proton-handler/proton-handler.cs:26-52 | the early-return loop over the split lines returns exactly `FirstCapture` |
| Extract.AfterKey | proton-handler/proton-handler.cs:14 | `KEY=(.*)$` matches a line iff the line holds `KEY=`; the capture is a suffix of the line, directly after an occurrence of `KEY=` |
| Extract.AfterKeyLeftmost | proton-handler/proton-handler.cs:14 | the capture is the rest of the line after the leftmost `KEY=` |
| Extract.EnvValueOfFirstLine | proton-handler/proton-handler.cs:26-38 | the value is the text after the leftmost `KEY=` on the first line holding `KEY=` |
| Extract.EnvValueAbsent | proton-handler/proton-handler.cs:26-38 | when no line holds `KEY=` the value is "" |
| Extract.EnvValue | proton-handler/proton-handler.cs:14-38 | `FirstCaptureGroup` with `KEY=(.*)$`: a non-empty value follows `KEY=` in the environment text and holds no newline (its value is pinned by EnvValueOfFirstLine and EnvValueAbsent) |
| Extract.SteamCompatInstallPath | proton-handler/proton-handler.cs:101-104 | "" or a newline-free text that stands after `STEAM_COMPAT_INSTALL_PATH=` in the environment |
| Extract.SteamCompatDataPath | proton-handler/proton-handler.cs:106-109 | "" or a newline-free text that stands after `STEAM_COMPAT_DATA_PATH=` in the environment |
| Extract.DotnetRoot | proton-handler/proton-handler.cs:122-125 | "" or a newline-free text that stands after `DOTNET_ROOT=` in the environment |
| Extract.AppExeFromEnviron | proton-handler/proton-handler.cs:127-130 | "" or a newline-free text that stands after `EXE=` in the environment |
| Extract.ProtonPathFromEnviron | proton-handler/proton-handler.cs:111-115 | "" or a path longer than `/proton` that ends in `/proton` and whose directory stands after `PROTONPATH=` |
| Extract.ProtonPathFromEnvironLine | proton-handler/proton-handler.cs:111-115 | a first `PROTONPATH=<dir>` line with non-empty dir gives `<dir>/proton` |
| Extract.ProtonGroupFrom | proton-handler/proton-handler.cs:15 | group `(.*/proton) ` from a start index captures a text ending in `/proton` and followed by a space at that index; greedy: no `/proton ` occurs after the captured one, and with no capture none occurs from the start index on |
| Extract.ProtonGroupFromFinds | proton-handler/proton-handler.cs:15 | a `/proton ` at or after the start index makes the group match |
| Extract.ContainerBranch | proton-handler/proton-handler.cs:15 | with the optional `.* container-runtime` group taking part, a capture ends in `/proton`, is followed by a space, and stands right after a ` container-runtime ` at or after the start index |
| Extract.ContainerBranchFinds | proton-handler/proton-handler.cs:15 | a ` container-runtime ` followed later by `/proton ` makes the branch match |
| Extract.ProtonMatchAt | proton-handler/proton-handler.cs:15 | a match at one start position captures a text ending in `/proton` followed by a space |
| Extract.ProtonMatchAtFinds | proton-handler/proton-handler.cs:15 | `-- `, later ` container-runtime `, later `/proton ` make the pattern match at the `-- `, and then the optional group takes part: the capture stands right after a ` container-runtime ` that follows the `-- ` |
| Extract.ProtonMatchFrom | proton-handler/proton-handler.cs:15 | a match from a start position on captures a text ending in `/proton` that is followed by a space in the line |
| Extract.ProtonMatchFromFinds | proton-handler/proton-handler.cs:15 | a match at some later start makes the leftmost search succeed |
| Extract.ProtonMatchFromLeftmost | proton-handler/proton-handler.cs:15 | the leftmost start position at which the pattern matches decides the capture |
| Extract.CmdlineProtonMatch | proton-handler/proton-handler.cs:15 | the pattern on one line captures a text ending in `/proton` followed by a space |
| Extract.ProtonPathFromCmdline | proton-handler/proton-handler.cs:117-120 | "" or a path ending in `/proton` that occurs in the command line followed by a space |
| Extract.ProtonCaptureOccurs | proton-handler/proton-handler.cs:40-52 | the capture of any matching line ends in `/proton` and occurs in the whole command line followed by a space |
| Extract.ProtonPathFromCmdlineFinds | proton-handler/proton-handler.cs:117-120 | a line holding `-- `, later ` container-runtime `, later `/proton ` gives a non-empty Proton path |
| Extract.ExeGroupFrom | proton-handler/proton-handler.cs:20 | group `(.*\.exe)` from a start index captures a text ending in `.exe` at that index; greedy: no `.exe` occurs after the captured one, and with no capture none occurs from the start index on |
| Extract.ExeMatchAt | proton-handler/proton-handler.cs:20 | a match at one start position captures a `.exe` text that directly follows `proton run ` or `proton waitforexitandrun ` at that position |
| Extract.ExeMatchFrom | proton-handler/proton-handler.cs:20 | a match from a start position on captures a text ending in `.exe` that follows one of the two verbs in the line |
| Extract.ExeMatchFromFinds | proton-handler/proton-handler.cs:20 | a match at some later start makes the leftmost search succeed |
| Extract.ExeMatchFromLeftmost | proton-handler/proton-handler.cs:20 | the leftmost start position at which the pattern matches decides the capture |
| Extract.CmdlineExeMatch | proton-handler/proton-handler.cs:20 | the pattern on one line captures a `.exe` text directly after `proton run ` or `proton waitforexitandrun ` |
| Extract.AppExeFromCmdline | proton-handler/proton-handler.cs:132-135 | "" or a path ending in `.exe` that occurs in the command line directly after `proton run ` or `proton waitforexitandrun ` |
| Extract.ExeCaptureOccurs | proton-handler/proton-handler.cs:40-52 | the capture of any matching line ends in `.exe` and follows one of the two verbs in the whole command line |
| Extract.AppExeFromCmdlineFinds | proton-handler/proton-handler.cs:132-135 | a line holding `proton run ` and later `.exe` gives a non-empty app path |
| Extract.ArgsAnchorFrom | proton-handler/proton-handler.cs:139 | the least position at or after the start where `exe` matches and a space follows, or none |
| Extract.ArgsAfter | proton-handler/proton-handler.cs:139 | `exe (.*)$` matches a line iff `exe` followed by a space matches somewhere in it |
| Extract.AppArgs | proton-handler/proton-handler.cs:137-140 | the arguments never start or end with whitespace |
| Extract.AppArgsOfFirstLine | proton-handler/proton-handler.cs:137-140 | for an `exe` whose only regex operator is `.`, the arguments are the trimmed rest of the first line holding `exe `, after its leftmost occurrence |
| Extract.AppArgsAbsent | proton-handler/proton-handler.cs:137-140 | for an `exe` whose only regex operator is `.`, when no line holds `exe ` the arguments are "" |
| Config.WriteProfile | proton-handler/proton-handler.cs:223-228 | the six keys of section `appExe`, created when missing, hold the profile's six values; the section's other keys and every other section keep their values |
| Config.ReadProfile | proton-handler/proton-handler.cs:240-248 | a cached profile exists iff section `appExe` holds `STEAM_COMPAT_DATA_PATH`, whose value becomes the prefix |
| Config.ReadAfterWrite | proton-handler/proton-handler.cs:223-248 | a profile written and then read back from the cache is the same profile |
| Config.WriteIdempotent | proton-handler/proton-handler.cs:223-228 | writing the same profile twice leaves the store as one write does |
| Config.WriteKeepsOtherProfiles | proton-handler/proton-handler.cs:223-228 | writing one app's section leaves every other app's cached profile as it was |
| Config.SetAfterReplace | proton-handler/proton-handler.cs:223-228 | two successive assignments into one section fold into one replacement of that section |
| Config.IniConfig.constructor | proton-handler/proton-handler.cs:162 | the parsed configuration holds the stored sections |
| Config.IniConfig.Get | proton-handler/proton-handler.cs:240 | `config[section][key]` is present iff the section holds the key, and then it is the stored value |
| Config.IniConfig.Set | proton-handler/proton-handler.cs:223 | `config[section][key] = value` replaces that one entry, creating the section when missing; nothing else changes |
| Handler.MatchesTarget | proton-handler/proton-handler.cs:189-200 | a command line matches the target iff the target, with `.` as the wildcard, matches at some position |
| Handler.Survives | proton-handler/proton-handler.cs:193-200 | a candidate passes both `continue`s iff both reads gave text and the target matches somewhere in its command line |
| Handler.LiteralTargetMatches | proton-handler/proton-handler.cs:189-200 | for a target whose only regex operator is `.`, a command line that holds the target name literally matches it |
| Handler.FirstSurvivor | proton-handler/proton-handler.cs:191-200 | the index of a candidate that has both texts and matches the target, with no such candidate before it, or the count when there is none |
| Handler.FirstSurvivorAt | proton-handler/proton-handler.cs:191-200 | a surviving candidate with no survivor before it is the first survivor |
| Handler.NoSurvivor | proton-handler/proton-handler.cs:191-200 | with no surviving candidate the search runs off the end |
| Handler.FirstSurvivorPrefix | proton-handler/proton-handler.cs:191-237 | candidates appended after a survivor do not move the first survivor |
| Handler.LiveProfile | proton-handler/proton-handler.cs:204-218 | app and Proton come from the environment when both are set there, otherwise both from the command line even if empty; a Proton path is "" or ends in `/proton`; the arguments are read after the chosen app; the other three fields come from the environment |
| Handler.SkipNonSurvivor | proton-handler/proton-handler.cs:194-200 | a candidate with an empty environment, an empty command line or no target match is skipped without effect |
| Handler.FirstSurvivorDecides | proton-handler/proton-handler.cs:191-237 | only the first surviving candidate is processed: any candidates after it do not change the outcome |
| Handler.Discover | proton-handler/proton-handler.cs:191-254 | a process-derived outcome (live or no-prefix) happens iff some candidate survives; a live outcome has a non-empty prefix and is the profile of a surviving candidate; a cached outcome is the stored profile; the no-profile outcome happens only when nothing is stored |
| Handler.StoreAfter | proton-handler/proton-handler.cs:220-230 | after a live outcome the profile reads back from the store; otherwise the store is unchanged; every other section is kept in every case |
| Handler.DiscoverLive | proton-handler/proton-handler.cs:202-235 | the first survivor's profile is the outcome when its prefix is non-empty, and the outcome is the fatal no-prefix exit otherwise |
| Handler.PersistenceRule | proton-handler/proton-handler.cs:220-254 | a live outcome has a non-empty prefix and reads back from the new store, which changes section `appExe` only; every other outcome leaves the store unchanged; a cached outcome is the stored section verbatim; the no-profile exit happens only with no survivor and no cached prefix |
| Handler.OnlyPrefixedProfilesPersist | proton-handler/proton-handler.cs:220-235 | a run either leaves the store unchanged or stores a non-empty `STEAM_COMPAT_DATA_PATH` in section `appExe` |
| Handler.LiveThenCached | proton-handler/proton-handler.cs:220-248 | a run that finds no process, after any profile was written for the app, uses exactly that profile |
| Handler.Gather | proton-handler/proton-handler.cs:171-175 | the candidate array is the bwrap processes followed by the reaper processes |
| Handler.Persist | proton-handler/proton-handler.cs:223-228 | the six assignments leave the store equal to the six-key write of the profile |
| Handler.Select | proton-handler/proton-handler.cs:191-254 | the loop with its `continue`s, `break`, writes and cache fallback returns the discovery outcome and leaves the store equal to its specified update |
| Handler.LaunchArgs | proton-handler/proton-handler.cs:263-279 | the argument list starts with `run` and the app and ends with the handler's own arguments |
| Handler.LaunchArgsRoundTrip | proton-handler/proton-handler.cs:263-279 | app, app arguments and pass-through arguments read back from the list; the app-argument slot is there iff it is non-empty |
| Handler.Overlay | proton-handler/proton-handler.cs:281-285 | the overlay sets exactly `DOTNET_ROOT`, `STEAM_COMPAT_CLIENT_INSTALL_PATH` and `STEAM_COMPAT_DATA_PATH` to the profile's values |
| Handler.ChildEnvironment | proton-handler/proton-handler.cs:281-285 | the child sees the three overlay values, and every other variable of the parent's environment unchanged |
| Handler.Plan | proton-handler/proton-handler.cs:153-285 | fewer than two arguments is the usage exit; a fatal exit happens iff discovery finds no usable profile; a launch runs the discovered Proton with `run`, app, optional app arguments and the pass-through arguments, and sets exactly the three overlay variables, the prefix among them |
| Handler.Run | proton-handler/proton-handler.cs:153-285 | the run returns the planned outcome; it touches no store with fewer than two arguments and otherwise leaves the store as discovery specifies |

## Left out

- Reading `/proc/<pid>/environ` and `/proc/<pid>/cmdline` through `/usr/bin/tr` (lines 54-99) is process and file I/O. Each read is an input string, with "" for a failed read. A read that fails part-way and leaves a partial buffer is not distinguished.
- The `File.Exists("/usr/bin/tr")` check and its exit 1 (lines 147-151) are environmental I/O.
- `Process.GetProcessesByName` (lines 171-172) is an OS query. The two name-filtered lists are the inputs of `Run`.
- Reading and writing the INI file, and building its path from `HOME` (lines 159-162 and 229), are library file I/O. The store is a map, and `parser.WriteFile` is the new value of that map. The INI library is not part of this model: a missing section reads as an empty one, and `config[appExe][key] = value` creates it.
- Handler.Select: a key missing from a cached section reads as "", where the library yields null. For `ARGS` that is the same at the launch (line 263). For the other keys the launch would fail or drop the variable.
- Executing Proton through CliWrap, awaiting its exit code, and all logging, including `handlerArgsString` (lines 168, 256-258 and 281-287), are process spawning and output. `Run` returns the launch request, that is the binary, the argument list and the overlay. An empty Proton path from the cache or from a failed extraction is passed on unchanged.
- Handler.MatchesTarget: the target name is compiled as a regular expression (line 189). The model treats `.` as "any character but a newline" and every other character as a literal. Other metacharacters, such as `(`, `+`, `*`, `[` or `\`, change the meaning or throw in the source and are not modelled. The lemmas about the match, such as LiteralTargetMatches, require a target free of them (`PlainPattern`).
- Extract.AppArgs: `exe` is compiled into `exe (.*)$` (line 139). The model treats `.` in it as a wildcard and every other character literally, as for the target name. AppArgsOfFirstLine and AppArgsAbsent require such an `exe`.
- Text.Trim: `String.Trim` removes all Unicode whitespace. The model removes ASCII whitespace only: space, tab, line feed, vertical tab, form feed and carriage return.
- `async`/`await` sequencing is treated as plain sequential code, since nothing runs concurrently.
