/** `getOsAlias`: the release-asset name of an operating system and
    architecture pair. */
module OsAlias {
  import opened Wrappers

  const Unrecognised := "Os not recognized"

  /** `_os || Deno.build.os`: an omitted or empty argument falls back to the host value. */
  function OrHost(given: Option<string>, host: string): (r: string)
    ensures given.Some? && given.value != "" ==> r == given.value
    ensures given.None? || given.value == "" ==> r == host
  {
    if given.Some? && given.value != "" then given.value else host
  }

  /** The alias of a resolved pair. */
  function Alias(os: string, arch: string): string {
    if os == "linux" && arch == "x86_64" then "linux_x64"
    else if os == "darwin" && arch == "x86_64" then "macos_x64"
    else if os == "darwin" && arch == "aarch64" then "macos_arm"
    else Unrecognised
  }

  /** `getOsAlias(_os, _arch)`: a recognised alias names the resolved pair. */
  function GetOsAlias(os: Option<string>, arch: Option<string>, hostOs: string, hostArch: string): (r: string)
    ensures r != Unrecognised ==> Platform(r) == Some((OrHost(os, hostOs), OrHost(arch, hostArch)))
  {
    Alias(OrHost(os, hostOs), OrHost(arch, hostArch))
  }

  /** The pair each recognised alias stands for; the inverse of `Alias`. */
  function Platform(alias: string): Option<(string, string)> {
    if alias == "linux_x64" then Some(("linux", "x86_64"))
    else if alias == "macos_x64" then Some(("darwin", "x86_64"))
    else if alias == "macos_arm" then Some(("darwin", "aarch64"))
    else None
  }

  /** Exactly three pairs are recognised, each giving a different alias, and
      the alias names the pair it came from. */
  lemma AliasTable(os: string, arch: string)
    ensures Alias(os, arch) != Unrecognised <==>
      (os, arch) in {("linux", "x86_64"), ("darwin", "x86_64"), ("darwin", "aarch64")}
    ensures Alias(os, arch) != Unrecognised ==> Platform(Alias(os, arch)) == Some((os, arch))
    ensures Alias(os, arch) == Unrecognised ==> Platform(Alias(os, arch)).None?
  {
  }

  /** Every recognised alias is produced by its own pair. */
  lemma PlatformRoundTrip(alias: string)
    ensures Platform(alias).Some? ==> Alias(Platform(alias).value.0, Platform(alias).value.1) == alias
  {
  }

  /** An omitted argument and an empty one both mean the host. */
  lemma OmittedMeansHost(arch: Option<string>, hostOs: string, hostArch: string)
    ensures GetOsAlias(None, arch, hostOs, hostArch) == GetOsAlias(Some(""), arch, hostOs, hostArch)
    ensures GetOsAlias(None, None, hostOs, hostArch) == Alias(hostOs, hostArch)
  {
  }
}
