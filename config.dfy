/**
 * The stored profiles: an INI file with one section per app exe name, read
 * into memory at start-up and written back whole after a live discovery.
 */
module Config {
  import opened Text

  // The six keys of a profile section.
  const AppKey := "APP"
  const ArgsKey := "ARGS"
  const ProtonKey := "PROTON"
  const SteamDirKey := "STEAM_COMPAT_CLIENT_INSTALL_PATH"
  const PrefixKey := "STEAM_COMPAT_DATA_PATH"
  const DotnetRootKey := "DOTNET_ROOT"

  const ProfileKeys: set<string> := {AppKey, ArgsKey, ProtonKey, SteamDirKey, PrefixKey, DotnetRootKey}

  /** Everything needed to relaunch Proton for one app. */
  datatype Profile = Profile(
    app: string,
    args: string,
    proton: string,
    steamDir: string,
    prefixDir: string,
    dotnetRoot: string)

  type Section = map<string, string>
  type Store = map<string, Section>

  /** The section as the parser hands it out: a missing section reads as an empty one. */
  function SectionOf(store: Store, name: string): Section
  {
    if name in store then store[name] else map[]
  }

  /** A key a section does not hold reads as "". */
  function ValueOf(section: Section, key: string): string
  {
    if key in section then section[key] else ""
  }

  /**
   * The six assignments into section `name`. Other keys of that section and
   * all other sections keep their values.
   */
  function WriteProfile(store: Store, name: string, p: Profile): (r: Store)
    ensures r.Keys == store.Keys + {name}
    ensures forall n :: n in store && n != name ==> r[n] == store[n]
    ensures r[name].Keys == SectionOf(store, name).Keys + ProfileKeys
    ensures forall k :: k in SectionOf(store, name) && k !in ProfileKeys ==> r[name][k] == SectionOf(store, name)[k]
    ensures r[name][AppKey] == p.app && r[name][ArgsKey] == p.args && r[name][ProtonKey] == p.proton
    ensures r[name][SteamDirKey] == p.steamDir && r[name][PrefixKey] == p.prefixDir && r[name][DotnetRootKey] == p.dotnetRoot
  {
    var section := SectionOf(store, name)
      [AppKey := p.app]
      [ArgsKey := p.args]
      [ProtonKey := p.proton]
      [SteamDirKey := p.steamDir]
      [PrefixKey := p.prefixDir]
      [DotnetRootKey := p.dotnetRoot];
    store[name := section]
  }

  /**
   * The cached profile of section `name`: usable exactly when the section
   * holds STEAM_COMPAT_DATA_PATH, whatever its value.
   */
  function ReadProfile(store: Store, name: string): (r: Option<Profile>)
    ensures r.Some? <==> name in store && PrefixKey in store[name]
    ensures r.Some? ==> r.value.prefixDir == store[name][PrefixKey]
  {
    var s := SectionOf(store, name);
    if PrefixKey in s then
      Some(Profile(
        ValueOf(s, AppKey),
        ValueOf(s, ArgsKey),
        ValueOf(s, ProtonKey),
        ValueOf(s, SteamDirKey),
        ValueOf(s, PrefixKey),
        ValueOf(s, DotnetRootKey)))
    else None
  }

  /** A profile written and read back is the same profile. */
  lemma ReadAfterWrite(store: Store, name: string, p: Profile)
    ensures ReadProfile(WriteProfile(store, name, p), name) == Some(p)
  {
    var s := WriteProfile(store, name, p)[name];
    assert s[AppKey] == p.app && s[ArgsKey] == p.args && s[ProtonKey] == p.proton;
    assert s[SteamDirKey] == p.steamDir && s[PrefixKey] == p.prefixDir && s[DotnetRootKey] == p.dotnetRoot;
  }

  /** Writing a profile overwrites; writing the same one again changes nothing. */
  lemma WriteIdempotent(store: Store, name: string, p: Profile)
    ensures WriteProfile(WriteProfile(store, name, p), name, p) == WriteProfile(store, name, p)
  {
    var once := WriteProfile(store, name, p);
    var twice := WriteProfile(once, name, p);
    assert twice[name] == once[name];
  }

  /** Writing one section leaves every other section's cached profile as it was. */
  lemma WriteKeepsOtherProfiles(store: Store, name: string, p: Profile, other: string)
    requires other != name
    ensures ReadProfile(WriteProfile(store, name, p), other) == ReadProfile(store, other)
  {
  }

  /** One assignment into a section that was already replaced: the two replacements fold into one. */
  lemma SetAfterReplace(base: Store, name: string, section: Section, key: string, value: string)
    ensures var store := base[name := section];
      store[name := SectionOf(store, name)[key := value]] == base[name := section[key := value]]
  {
  }

  /** The parsed configuration, updated in place by the handler. */
  class IniConfig {
    var sections: Store

    constructor (initial: Store)
      ensures sections == initial
    {
      sections := initial;
    }

    /** `config[section][key]`: None where the parser returns null. */
    function Get(section: string, key: string): (r: Option<string>)
      reads this
      ensures r.Some? <==> section in sections && key in sections[section]
      ensures r.Some? ==> r.value == sections[section][key]
    {
      if section in sections && key in sections[section] then Some(sections[section][key]) else None
    }

    /** `config[section][key] = value`: the section is created on demand; nothing else changes. */
    method Set(section: string, key: string, value: string)
      modifies this
      ensures sections == old(sections)[section := SectionOf(old(sections), section)[key := value]]
    {
      sections := sections[section := SectionOf(sections, section)[key := value]];
    }
  }
}
