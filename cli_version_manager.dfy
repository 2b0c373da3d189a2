/** `classCliVersionManager`: which `wpd` version a project needs, whether
    commands must be dispatched to another installed version, and how a
    version is chosen, installed and made the default. The version the
    project file names, the running version, the version list, directory
    listings, `pathExist` and the download are parameters; files are a map
    from path to content. */
module CliVersionManager {
  import opened Wrappers
  import opened GitHubApiClient
  import OsAlias

  /** `CLI_DIR`: the main directory and the versions directory. */
  datatype CliDir = CliDir(main: string, versions: string)

  /** The result of `getWpdDetails`. */
  datatype WpdDetails = WpdDetails(dirname: string, filename: string, filenameDeprecated: string)

  /** The files of a file system, by path. */
  type Files = map<string, string>

  // ---- paths ----

  /** `getWpdDetails`: the version's directory under the versions directory,
      its `wpd` binary and the `WPDucker` binary of older releases. */
  function GetWpdDetails(versions: string, tagName: string): (d: WpdDetails)
    ensures d.dirname == versions + "/" + tagName
    ensures d.filename == d.dirname + "/wpd" && d.filenameDeprecated == d.dirname + "/WPDucker"
  {
    var dirname := versions + "/" + tagName;
    WpdDetails(dirname, dirname + "/wpd", dirname + "/WPDucker")
  }

  /** The default binary and the two scratch names `setDefaultVersion` uses. */
  function MainFile(main: string): string { main + "/wpd" }
  function TmpFile(main: string): string { main + "/tmp_wpd" }
  function RmFile(main: string): string { main + "/rm_wpd" }

  /** Two strings with different endings of the shorter's length differ. */
  lemma EndingsDiffer(a: string, b: string, x: string, y: string)
    requires |x| <= |y| && y[|y| - |x|..] != x
    ensures a + x != b + y
  {
    var s, t := a + x, b + y;
    assert s[|s| - |x|..] == x;
    assert t[|t| - |x|..] == y[|y| - |x|..];
  }

  /** The files `setDefaultVersion` touches are pairwise different, except
      that the version's binary may be the default binary itself (when the
      versions directory plus the tag spell the main directory). */
  lemma PathsDistinct(cliDir: CliDir, tagName: string)
    ensures var d := GetWpdDetails(cliDir.versions, tagName);
      var wpd, tmp, rm := MainFile(cliDir.main), TmpFile(cliDir.main), RmFile(cliDir.main);
      && wpd != tmp && wpd != rm && tmp != rm
      && d.filename != d.filenameDeprecated && d.filename != tmp && d.filename != rm
      && d.filenameDeprecated != wpd && d.filenameDeprecated != tmp && d.filenameDeprecated != rm
  {
    var main, dir := cliDir.main, cliDir.versions + "/" + tagName;
    assert "/tmp_wpd"[4..] == "_wpd";
    assert "/rm_wpd"[3..] == "_wpd";
    assert "/tmp_wpd"[1..] == "tmp_wpd";
    assert "/WPDucker"[5..] == "cker";
    assert "/WPDucker"[2..] == "PDucker";
    assert "/WPDucker"[1..] == "WPDucker";
    EndingsDiffer(main, main, "/wpd", "/tmp_wpd");
    EndingsDiffer(main, main, "/wpd", "/rm_wpd");
    EndingsDiffer(main, main, "/rm_wpd", "/tmp_wpd");
    EndingsDiffer(dir, dir, "/wpd", "/WPDucker");
    EndingsDiffer(dir, main, "/wpd", "/tmp_wpd");
    EndingsDiffer(dir, main, "/wpd", "/rm_wpd");
    EndingsDiffer(main, dir, "/wpd", "/WPDucker");
    EndingsDiffer(main, dir, "/tmp_wpd", "/WPDucker");
    EndingsDiffer(main, dir, "/rm_wpd", "/WPDucker");
  }

  /** Different tags have different directories and binaries. */
  lemma DetailsInjective(versions: string, t1: string, t2: string)
    requires t1 != t2
    ensures GetWpdDetails(versions, t1).dirname != GetWpdDetails(versions, t2).dirname
    ensures GetWpdDetails(versions, t1).filename != GetWpdDetails(versions, t2).filename
  {
    var p := versions + "/";
    var d1, d2 := p + t1, p + t2;
    assert d1[|p|..] == t1 && d2[|p|..] == t2;
    var f1, f2 := d1 + "/wpd", d2 + "/wpd";
    assert f1[..|f1| - 4] == d1 && f2[..|f2| - 4] == d2;
  }

  // ---- which version is required ----

  /** `getProjectRequiredCliVersion`: a non-empty preferred version, else the
      version the project names. */
  function ProjectRequired(preferred: Option<string>, byProject: Option<string>): (r: Option<string>)
    ensures preferred.Some? && preferred.value != "" ==> r == preferred
    ensures (preferred.None? || preferred.value == "") ==> r == byProject
  {
    if preferred.Some? && preferred.value != "" then preferred else byProject
  }

  /** `projectRequiredCliVersion || currentCliVersion` */
  function Required(preferred: Option<string>, byProject: Option<string>, current: string): string {
    var p := ProjectRequired(preferred, byProject);
    if p.Some? && p.value != "" then p.value else current
  }

  /** `autoSetDispatch` goes past its early return. */
  predicate ShouldDispatch(required: string, current: string) {
    required != "" && required != current
  }

  /** The preferred version wins over the project's; without either the
      running version is required. */
  lemma RequiredPriority(preferred: Option<string>, byProject: Option<string>, current: string)
    ensures preferred.Some? && preferred.value != "" ==> Required(preferred, byProject, current) == preferred.value
    ensures (preferred.None? || preferred.value == "") && byProject.Some? && byProject.value != "" ==>
      Required(preferred, byProject, current) == byProject.value
    ensures (preferred.None? || preferred.value == "") && (byProject.None? || byProject.value == "") ==>
      Required(preferred, byProject, current) == current
  {
  }

  /** Dispatching happens exactly when a preferred or project version is
      named and it is not the running version. */
  lemma DispatchIff(preferred: Option<string>, byProject: Option<string>, current: string)
    ensures ShouldDispatch(Required(preferred, byProject, current), current) <==>
      var p := ProjectRequired(preferred, byProject);
      p.Some? && p.value != "" && p.value != current
  {
  }

  /** What `init` leaves to do after `ensureVersion`'s check. */
  datatype InitStep = NoDispatchTarget | AlreadyInstalled(filename: string) | NeedsDownload(tagName: string)

  /** `ensureVersion`: nothing when the version's `wpd` exists, else its
      download. */
  function EnsureVersion(versions: string, tagName: string, pathExists: string -> bool): (s: InitStep)
    ensures s.AlreadyInstalled? <==> pathExists(GetWpdDetails(versions, tagName).filename)
    ensures s.AlreadyInstalled? ==> s.filename == versions + "/" + tagName + "/wpd"
    ensures s.NeedsDownload? ==> s.tagName == tagName
  {
    var filename := GetWpdDetails(versions, tagName).filename;
    if pathExists(filename) then AlreadyInstalled(filename) else NeedsDownload(tagName)
  }

  // ---- the dispatch state ----

  class VersionManager {
    const cliDir: CliDir
    const tmpDir: string
    var dispatch: bool
    var dispatchTarget: seq<string>
    var requiredCliVersion: Option<string>
    var preferredCliVersion: Option<string>

    constructor(cliDir: CliDir, tmpDir: string)
      ensures this.cliDir == cliDir && this.tmpDir == tmpDir
      ensures !dispatch && dispatchTarget == [] && requiredCliVersion.None? && preferredCliVersion.None?
    {
      this.cliDir := cliDir;
      this.tmpDir := tmpDir;
      dispatch := false;
      dispatchTarget := [];
      requiredCliVersion := None;
      preferredCliVersion := None;
    }

    /** `shouldOutsourceCmd` */
    function ShouldOutsourceCmd(): bool
      reads this
    {
      dispatch
    }

    /** `getDispatchTarget` */
    function GetDispatchTarget(): seq<string>
      reads this
    {
      dispatchTarget
    }

    method SetPreferredCliVersion(version: string)
      modifies this
      ensures preferredCliVersion == Some(version)
      ensures dispatch == old(dispatch) && dispatchTarget == old(dispatchTarget)
      ensures requiredCliVersion == old(requiredCliVersion)
    {
      preferredCliVersion := Some(version);
    }

    method UnsetPreferredCliVersion()
      modifies this
      ensures preferredCliVersion.None?
      ensures dispatch == old(dispatch) && dispatchTarget == old(dispatchTarget)
      ensures requiredCliVersion == old(requiredCliVersion)
    {
      preferredCliVersion := None;
    }

    method ResetDispatchValue()
      modifies this
      ensures !dispatch
      ensures dispatchTarget == old(dispatchTarget) && requiredCliVersion == old(requiredCliVersion)
      ensures preferredCliVersion == old(preferredCliVersion)
    {
      dispatch := false;
    }

    method ResetDispatchTargetValue()
      modifies this
      ensures dispatchTarget == []
      ensures dispatch == old(dispatch) && requiredCliVersion == old(requiredCliVersion)
      ensures preferredCliVersion == old(preferredCliVersion)
    {
      dispatchTarget := [];
    }

    /** `autoSetDispatch` with the project's version and the running version
        given: records the required version and, when it is another version,
        dispatches to its `wpd` and its `WPDucker`. */
    method AutoSetDispatch(byProject: Option<string>, current: string)
      modifies this
      ensures requiredCliVersion == Some(Required(preferredCliVersion, byProject, current))
      ensures preferredCliVersion == old(preferredCliVersion)
      ensures var required := Required(preferredCliVersion, byProject, current);
        if ShouldDispatch(required, current) then
          var d := GetWpdDetails(cliDir.versions, required);
          dispatch && dispatchTarget == [d.filename, d.filenameDeprecated]
        else dispatch == old(dispatch) && dispatchTarget == old(dispatchTarget)
    {
      var projectRequired := ProjectRequired(preferredCliVersion, byProject);
      var required := if projectRequired.Some? && projectRequired.value != "" then projectRequired.value else current;
      requiredCliVersion := Some(required);
      if required == "" || current == required {
        return;
      }
      dispatch := true;
      var details := GetWpdDetails(cliDir.versions, required);
      dispatchTarget := [details.filename, details.filenameDeprecated];
    }

    /** `init`: reset, decide the dispatch, and make sure the dispatch target
        is installed. */
    method Init(byProject: Option<string>, current: string, pathExists: string -> bool) returns (step: InitStep)
      modifies this
      ensures preferredCliVersion == old(preferredCliVersion)
      ensures requiredCliVersion == Some(Required(preferredCliVersion, byProject, current))
      ensures dispatch == ShouldDispatch(Required(preferredCliVersion, byProject, current), current)
      ensures var d := GetWpdDetails(cliDir.versions, Required(preferredCliVersion, byProject, current));
        dispatchTarget == if dispatch then [d.filename, d.filenameDeprecated] else []
      ensures step == if dispatch then EnsureVersion(cliDir.versions, requiredCliVersion.value, pathExists)
                      else NoDispatchTarget
    {
      ResetDispatchValue();
      ResetDispatchTargetValue();
      AutoSetDispatch(byProject, current);
      if |dispatchTarget| == 0 {
        return NoDispatchTarget;
      }
      // The check for an empty required version that follows in the source
      // cannot fail here: a dispatch target implies a non-empty version.
      step := EnsureVersion(cliDir.versions, requiredCliVersion.value, pathExists);
    }

    /** `getInstalledVersions`: the entries of the versions directory that are
        available tags, in directory order; nothing when the directory is
        missing. */
    method GetInstalledVersions(available: seq<string>, entries: Option<seq<string>>) returns (installed: seq<string>)
      ensures installed == if entries.Some? then InstalledOf(entries.value, available) else []
    {
      installed := [];
      if entries.Some? {
        var names := entries.value;
        for i := 0 to |names|
          invariant installed == InstalledOf(names[..i], available)
        {
          assert names[..i + 1][..i] == names[..i];
          var dirname := if names[i] in available then names[i] else "";
          if dirname != "" {
            installed := installed + [dirname];
          }
        }
        assert names[..|names|] == names;
      }
    }
  }

  /** The directory names that are non-empty available tags, in order. */
  function InstalledOf(names: seq<string>, available: seq<string>): seq<string> {
    if |names| == 0 then []
    else
      var init, last := names[..|names| - 1], names[|names| - 1];
      InstalledOf(init, available) + (if last in available && last != "" then [last] else [])
  }

  /** A name is reported installed exactly when it is a directory entry and
      an available tag; no more names come out than went in. */
  lemma {:induction false} InstalledMembers(names: seq<string>, available: seq<string>)
    ensures forall x :: x in InstalledOf(names, available) <==> x in names && x in available && x != ""
    ensures |InstalledOf(names, available)| <= |names|
  {
    if |names| > 0 {
      var init := names[..|names| - 1];
      InstalledMembers(init, available);
      assert names == init + [names[|names| - 1]];
    }
  }

  // ---- making a version the default ----

  /** `Deno.rename`: the content moves to the new path, replacing any file
      there. */
  function Rename(fs: Files, from: string, to: string): Files
    requires from in fs
  {
    if from == to then fs else fs[to := fs[from]] - {from}
  }

  function NotAvailableError(tagName: string): string {
    "Version \"" + tagName + "\" is not available!"
  }

  /** The error `Deno.copyFileSync` raises for a missing source file. */
  function CopyError(from: string, to: string): string {
    "No such file or directory (os error 2): copy '" + from + "' -> '" + to + "'"
  }

  const NoAvailableVersion := "No available wpd version!"

  /** The files once the version is installed: as they are when it is
      installed, else as `downloadVersion` leaves them. */
  function Prepared(tagName: string, installed: seq<string>, fs: Files, download: (string, Files) -> Result<Files>): Result<Files> {
    if tagName in installed then Ok(fs) else download(tagName, fs)
  }

  /** The version's binary: the old `WPDucker` name when it is there, which
      is renamed to `wpd` first, else `wpd`. */
  function VersionBinary(fs: Files, d: WpdDetails): Option<string> {
    if d.filenameDeprecated in fs then Some(fs[d.filenameDeprecated])
    else if d.filename in fs then Some(fs[d.filename])
    else None
  }

  /** After making the version with binary `bin` the default: the default
      binary and the version's `wpd` hold `bin`; the old name and the scratch
      files are gone; every other file is as it was. */
  ghost predicate Installs(before: Files, after: Files, main: string, d: WpdDetails, bin: string) {
    InstallsAt(before, after, MainFile(main), TmpFile(main), RmFile(main), d.filename, d.filenameDeprecated, bin)
  }

  ghost predicate InstallsAt(before: Files, after: Files, wpd: string, tmp: string, rm: string,
                             file: string, legacy: string, bin: string) {
    && wpd in after && after[wpd] == bin
    && file in after && after[file] == bin
    && legacy !in after && tmp !in after && rm !in after
    && forall p :: p != wpd && p != tmp && p != rm && p != file && p != legacy ==>
                   (p in after <==> p in before) && (p in after ==> after[p] == before[p])
  }

  /** The renames and the copy of `setDefaultVersion` once the version is
      there: the old name `legacy` renamed to `file`, the scratch files removed,
      `file` copied to `tmp`, the default `wpd` moved to `rm`, `tmp` moved to
      `wpd` and `rm` removed. */
  function SwapIn(fs: Files, wpd: string, tmp: string, rm: string, file: string, legacy: string): (r: Result<Files>)
    requires wpd != tmp && wpd != rm && tmp != rm
    requires file != legacy && file != tmp && file != rm
    requires legacy != wpd && legacy != tmp && legacy != rm
    ensures legacy !in fs && file !in fs ==> r == Err(CopyError(file, tmp))
    ensures legacy in fs ==> r.Ok? && InstallsAt(fs, r.value, wpd, tmp, rm, file, legacy, fs[legacy])
    ensures legacy !in fs && file in fs ==> r.Ok? && InstallsAt(fs, r.value, wpd, tmp, rm, file, legacy, fs[file])
  {
    var fs3 := Renamed(fs, tmp, rm, file, legacy);
    if file !in fs3 then Err(CopyError(file, tmp))
    else Ok(Swapped(fs3, wpd, tmp, rm, file))
  }

  /** The first steps of the swap: `legacy`, when there, renamed to `file`,
      then `tmp` and `rm` removed. */
  function Renamed(fs: Files, tmp: string, rm: string, file: string, legacy: string): (r: Files)
    requires tmp != rm && file != legacy && file != tmp && file != rm
    requires legacy != tmp && legacy != rm
    ensures file in r <==> legacy in fs || file in fs
    ensures legacy in fs ==> r[file] == fs[legacy]
    ensures legacy !in fs && file in fs ==> r[file] == fs[file]
    ensures legacy !in r && tmp !in r && rm !in r
    ensures forall p :: p != tmp && p != rm && p != file && p != legacy ==>
                        (p in r <==> p in fs) && (p in r ==> r[p] == fs[p])
  {
    var fs2 := if legacy in fs then Rename(fs, legacy, file) else fs;
    fs2 - {tmp} - {rm}
  }

  /** The last steps of the swap: `file` copied to `tmp`, `wpd`, when there,
      moved to `rm`, `tmp` moved to `wpd` and `rm` removed. */
  function Swapped(fs: Files, wpd: string, tmp: string, rm: string, file: string): (r: Files)
    requires wpd != tmp && wpd != rm && tmp != rm && file != tmp && file != rm
    requires file in fs && tmp !in fs && rm !in fs
    ensures wpd in r && r[wpd] == fs[file]
    ensures file in r && r[file] == fs[file]
    ensures tmp !in r && rm !in r
    ensures forall p :: p != wpd && p != tmp && p != rm ==>
                        (p in r <==> p in fs) && (p in r ==> r[p] == fs[p])
  {
    var fs4 := fs[tmp := fs[file]];
    var fs5 := if wpd in fs4 then Rename(fs4, wpd, rm) else fs4;
    var fs6 := Rename(fs5, tmp, wpd);
    fs6 - {rm}
  }

  /** `setDefaultVersion` with the available tags, the installed ones and the
      download given. */
  function SetDefaultVersion(cliDir: CliDir, tagName: string, available: seq<string>, installed: seq<string>,
                             fs: Files, download: (string, Files) -> Result<Files>): (r: Result<Files>)
    ensures tagName !in available ==> r == Err(NotAvailableError(tagName))
    ensures tagName in available && Prepared(tagName, installed, fs, download).Err? ==>
      r == Err(Prepared(tagName, installed, fs, download).error)
    ensures tagName in available && Prepared(tagName, installed, fs, download).Ok? ==>
      var fs1 := Prepared(tagName, installed, fs, download).value;
      var d := GetWpdDetails(cliDir.versions, tagName);
      match VersionBinary(fs1, d)
      case None => r == Err(CopyError(d.filename, TmpFile(cliDir.main)))
      case Some(bin) => r.Ok? && Installs(fs1, r.value, cliDir.main, d, bin)
  {
    if tagName !in available then Err(NotAvailableError(tagName))
    else
      var prepared := Prepared(tagName, installed, fs, download);
      if prepared.Err? then Err(prepared.error)
      else
        var d := GetWpdDetails(cliDir.versions, tagName);
        PathsDistinct(cliDir, tagName);
        SwapIn(prepared.value, MainFile(cliDir.main), TmpFile(cliDir.main), RmFile(cliDir.main),
               d.filename, d.filenameDeprecated)
  }

  /** `useLatest`: the first version of the list becomes the default and its
      tag is returned. */
  function UseLatest(cliDir: CliDir, versions: seq<string>, installed: seq<string>, fs: Files,
                     download: (string, Files) -> Result<Files>): (r: Result<(string, Files)>)
    ensures |versions| == 0 ==> r == Err(NoAvailableVersion)
    ensures r.Ok? ==> |versions| > 0 && r.value.0 == versions[0]
    ensures r.Ok? ==>
      var d := GetWpdDetails(cliDir.versions, versions[0]);
      MainFile(cliDir.main) in r.value.1 && d.filename in r.value.1
      && r.value.1[MainFile(cliDir.main)] == r.value.1[d.filename]
    ensures |versions| > 0 && Prepared(versions[0], installed, fs, download).Ok? ==>
      (r.Ok? <==> VersionBinary(Prepared(versions[0], installed, fs, download).value,
                                GetWpdDetails(cliDir.versions, versions[0])).Some?)
    ensures |versions| > 0 && Prepared(versions[0], installed, fs, download).Err? ==>
      r == Err(Prepared(versions[0], installed, fs, download).error)
    ensures r.Ok? ==>
      var fs1 := Prepared(versions[0], installed, fs, download).value;
      var d := GetWpdDetails(cliDir.versions, versions[0]);
      Installs(fs1, r.value.1, cliDir.main, d, VersionBinary(fs1, d).value)
  {
    if |versions| == 0 then Err(NoAvailableVersion)
    else
      var latest := versions[0];
      var installedLatest := SetDefaultVersion(cliDir, latest, versions, installed, fs, download);
      if installedLatest.Err? then Err(installedLatest.error) else Ok((latest, installedLatest.value))
  }

  // ---- choosing the download ----

  /** The first asset with exactly that name. */
  function FindAsset(assets: seq<Asset>, name: string): Option<Asset> {
    FindFirst(assets, (a: Asset) => a.name, name)
  }

  function NotFoundReleaseError(tagName: string): string {
    "Not found release \"" + tagName + "\" version!"
  }

  function NotFoundUrlError(tagName: string): string {
    "Not found download url for wpd \"" + tagName + "\" version!"
  }

  function InvalidTmpDirError(tmpDir: string): string {
    "Invalid session tmp dir \"" + tmpDir + "\"!"
  }

  /** The checks of `downloadVersion` before it downloads: the release, a
      recognised system, the URL of the `<alias>.zip` asset and a session
      directory, in that order; the result is the URL to download. */
  function DownloadUrl(tagName: string, release: Option<Release>, osAlias: string, tmpDir: string): (r: Result<string>)
    ensures release.None? ==> r == Err(NotFoundReleaseError(tagName))
    ensures release.Some? && osAlias == OsAlias.Unrecognised ==> r == Err(OsAlias.Unrecognised)
    ensures release.Some? && osAlias != OsAlias.Unrecognised ==>
      var asset := FindAsset(release.value.assets, osAlias + ".zip");
      if asset.None? || asset.value.browserDownloadUrl == "" then r == Err(NotFoundUrlError(tagName))
      else if tmpDir == "" then r == Err(InvalidTmpDirError(tmpDir))
      else r == Ok(asset.value.browserDownloadUrl)
  {
    if release.None? then Err(NotFoundReleaseError(tagName))
    else if osAlias == OsAlias.Unrecognised then Err(osAlias)
    else
      var asset := FindAsset(release.value.assets, osAlias + ".zip");
      var url := if asset.Some? then asset.value.browserDownloadUrl else "";
      if url == "" then Err(NotFoundUrlError(tagName))
      else if tmpDir == "" then Err(InvalidTmpDirError(tmpDir))
      else Ok(url)
  }

  /** A URL chosen for a tag from a release list is the URL of the first
      `<alias>.zip` asset of a release with that tag, and the alias is a
      recognised one. */
  lemma DownloadFromTaggedRelease(releases: seq<Release>, tagName: string, osAlias: string, tmpDir: string)
    ensures var r := DownloadUrl(tagName, FindTag(releases, tagName), osAlias, tmpDir);
      r.Ok? ==>
        && osAlias != OsAlias.Unrecognised && tmpDir != ""
        && exists i, k :: 0 <= i < |releases| && 0 <= k < |releases[i].assets|
             && releases[i].tagName == tagName && releases[i].assets[k].name == osAlias + ".zip"
             && releases[i].assets[k].browserDownloadUrl == r.value
  {
    var release := FindTag(releases, tagName);
    if release.Some? && osAlias != OsAlias.Unrecognised {
      var asset := FindAsset(release.value.assets, osAlias + ".zip");
      if asset.Some? {
        var i :| 0 <= i < |releases| && releases[i] == release.value && release.value.tagName == tagName;
        var k :| 0 <= k < |release.value.assets| && release.value.assets[k] == asset.value;
        assert releases[i].assets[k] == asset.value;
      }
    }
  }
}
