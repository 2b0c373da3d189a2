/** `classDatabaseService`: the user service that keeps the database server
    running, as a launchd property list on darwin and a systemd unit on
    linux. The operating system, the home directory from the environment,
    the local-storage directory and the files on disk are parameters; the
    `launchctl`/`systemctl` run is returned as the command it would be. */
module DatabaseService {
  import opened Wrappers
  import opened JsString

  /** The phrase of the command the service runs (`service db start`). */
  const StartPhrase := "service db start"

  /** The line break of the generated files. */
  const Nl := "\r\n"

  datatype Service = Service(name: string, execPath: string, description: string, homeDir: string)

  const InvalidHomeError := "Home directory is invalid 'undefined'!"

  /** The constructor: a non-empty given home directory, else `HOME`; it
      fails when neither is a string. */
  function NewService(name: string, description: string, execPath: string,
                      homeDir: Option<string>, envHome: Option<string>): (r: Result<Service>)
    ensures r.Err? <==> (homeDir.None? || homeDir.value == "") && envHome.None?
    ensures r.Err? ==> r.error == InvalidHomeError
    ensures r.Ok? ==> r.value.name == name && r.value.description == description && r.value.execPath == execPath
    ensures r.Ok? && homeDir.Some? && homeDir.value != "" ==> r.value.homeDir == homeDir.value
    ensures r.Ok? && (homeDir.None? || homeDir.value == "") ==> r.value.homeDir == envHome.value
  {
    var home := if homeDir.Some? && homeDir.value != "" then homeDir else envHome;
    if home.None? then Err(InvalidHomeError)
    else Ok(Service(name, execPath, description, home.value))
  }

  // ---- where the service file goes ----

  function ServiceDirOf(homeDir: string, os: string): string {
    if os == "darwin" then homeDir + "/Library/LaunchAgents" else homeDir + "/.config/systemd/user"
  }

  /** `getServiceFilePath` */
  function ServiceFilePath(s: Service, os: string): (r: Option<string>)
    ensures r.Some? <==> os == "darwin" || os == "linux"
    ensures os == "darwin" ==> r == Some(s.homeDir + "/Library/LaunchAgents/" + s.name + ".plist")
    ensures os == "linux" ==> r == Some(s.homeDir + "/.config/systemd/user/" + s.name + ".service")
  {
    match os
    case "darwin" => Some(s.homeDir + "/Library/LaunchAgents/" + s.name + ".plist")
    case "linux" => Some(s.homeDir + "/.config/systemd/user/" + s.name + ".service")
    case _ => None
  }

  /** `path.substring(0, path.lastIndexOf('/'))` */
  function ParentDir(path: string): string {
    Substring(path, 0, LastIndexOf(path, "/"))
  }

  /** The last `/` of a path whose final part has none is the one before
      that part. */
  lemma LastSlash(dir: string, tail: string)
    requires '/' !in tail
    ensures LastIndexOf(dir + "/" + tail, "/") == |dir|
  {
    var p := dir + "/" + tail;
    assert p[|dir|..|dir| + 1] == "/";
    assert OccursAt(p, "/", |dir|);
    forall i | |dir| < i
      ensures !OccursAt(p, "/", i)
    {
      if i < |p| {
        assert p[i] == tail[i - |dir| - 1];
        assert tail[i - |dir| - 1] in tail;
        assert p[i..i + 1][0] == p[i];
      }
    }
  }

  /** The directory created for the service file is the launchd or systemd
      user directory, when the name has no `/`. */
  lemma ServiceFileDir(s: Service, os: string)
    requires os == "darwin" || os == "linux"
    requires '/' !in s.name
    ensures ParentDir(ServiceFilePath(s, os).value) == ServiceDirOf(s.homeDir, os)
  {
    var ext := if os == "darwin" then ".plist" else ".service";
    assert ServiceFilePath(s, os).value == ServiceDirOf(s.homeDir, os) + "/" + (s.name + ext);
    assert '/' !in ext;
    NotInJoin('/', s.name, ext);
    ParentOfJoined(ServiceDirOf(s.homeDir, os), s.name + ext);
  }

  /** The parent of `dir/tail` is `dir` when `tail` has no `/`. */
  lemma ParentOfJoined(dir: string, tail: string)
    requires '/' !in tail
    ensures ParentDir(dir + "/" + tail) == dir
  {
    LastSlash(dir, tail);
    assert (dir + "/" + tail)[..|dir|] == dir;
  }

  // ---- the generated files ----

  /** The lines, each followed by `\r\n`. */
  function Lines(ls: seq<string>): string {
    if |ls| == 0 then "" else Lines(ls[..|ls| - 1]) + ls[|ls| - 1] + Nl
  }

  lemma {:induction false} LinesConcat(a: seq<string>, b: seq<string>)
    ensures Lines(a + b) == Lines(a) + Lines(b)
    decreases |b|
  {
    if |b| > 0 {
      var init := b[..|b| - 1];
      assert (a + b)[..|a + b| - 1] == a + init;
      LinesConcat(a, init);
    } else {
      assert a + b == a;
    }
  }

  /** The systemd unit's lines. */
  // The fixed text of the systemd unit, kept in named constants.
  const UnitSection := "[Unit]"
  const DescriptionKey := "Description="
  const ServiceSection := "[Service]"
  const ExecStartKey := "ExecStart="
  const RestartPolicy := ["Restart=always", "RestartSec=5", "StartLimitBurst=3", "StartLimitIntervalSec=60"]
  const StdOutKey := "StandardOutput=append:"
  const StdErrKey := "StandardError=append:"
  const InstallSection := ["", "[Install]", "WantedBy=default.target"]

  function LinuxLines(s: Service, phrase: string, localStorage: string): seq<string> {
    [UnitSection, DescriptionKey + s.description, "", ServiceSection, ExecStartKey + s.execPath + " " + phrase]
    + RestartPolicy
    + [ StdOutKey + localStorage + "/logs/std/" + s.name + ".out.log",
        StdErrKey + localStorage + "/logs/err/" + s.name + ".err.log" ]
    + InstallSection
  }

  /** `generateServiceFileContentForLinux` */
  function GenerateLinux(s: Service, phrase: string, localStorage: string): string {
    Lines(LinuxLines(s, phrase, localStorage))
  }

  // The fixed text of the property list, kept in named constants.
  const PlistPrologue := [
    "<?xml version=\"1.0\" encoding=\"UTF-8\"?>",
    "<!DOCTYPE plist PUBLIC \"-//Apple Computer//DTD PLIST 1.0//EN\" \"http://www.apple.com/DTDs/PropertyList-1.0.dtd\" >",
    "<plist version=\"1.0\">",
    "    <dict>",
    "        <key>Label</key>" ]
  const DescriptionEntry := "        <key>Description</key>"
  const ArgumentsEntry := "        <key>ProgramArguments</key>"
  const ArrayOpen := "        <array>"
  const ArrayClose := "        </array>"
  const PlistOptions := [
    "        <key>RunAtLoad</key>",
    "        <true/>",
    "        <key>KeepAlive</key>",
    "        <true/>",
    "        <key>ThrottleInterval</key>",
    "        <integer>60</integer>",
    "        <key>StandardOutPath</key>" ]
  const ErrorPathEntry := "        <key>StandardErrorPath</key>"
  const PlistEpilogue := ["    </dict>", "</plist>"]
  const EntryIndent := "        <string>"
  const ArgIndent := "            <string>"
  const StringClose := "</string>"

  /** A `<string>` value of the dictionary. */
  function EntryLine(text: string): string {
    EntryIndent + text + StringClose
  }

  /** A `<string>` element of the program arguments. */
  function StringLine(text: string): string {
    ArgIndent + text + StringClose
  }

  function DarwinHead(s: Service): seq<string> {
    PlistPrologue
    + [EntryLine(s.name), DescriptionEntry, EntryLine(s.description), ArgumentsEntry, ArrayOpen, StringLine(s.execPath)]
  }

  function ArgLines(args: seq<string>): (r: seq<string>)
    ensures |r| == |args| && forall i :: 0 <= i < |args| ==> r[i] == StringLine(args[i])
  {
    seq(|args|, i requires 0 <= i < |args| => StringLine(args[i]))
  }

  function DarwinTail(s: Service, localStorage: string): seq<string> {
    [ArrayClose] + PlistOptions
    + [ EntryLine(localStorage + "/logs/std/" + s.name + ".out.log"),
        ErrorPathEntry,
        EntryLine(localStorage + "/logs/std/" + s.name + ".err.log") ]
    + PlistEpilogue
  }

  /** The property list's lines: its program arguments are the executable
      followed by each space-separated word of the start phrase. */
  function DarwinLines(s: Service, phrase: string, localStorage: string): seq<string> {
    DarwinHead(s) + ArgLines(Split(phrase, ' ')) + DarwinTail(s, localStorage)
  }

  /** `generateServiceFileContentForDarwin` */
  method GenerateDarwin(s: Service, phrase: string, localStorage: string) returns (content: string)
    ensures content == Lines(DarwinLines(s, phrase, localStorage))
  {
    var cmdStartArgs := Split(phrase, ' ');
    var head := DarwinHead(s);
    content := Lines(head);
    content := AppendLines(content, ArgLines(cmdStartArgs));
    var tail := DarwinTail(s, localStorage);
    content := content + Lines(tail);
    LinesConcat(head, ArgLines(cmdStartArgs));
    LinesConcat(head + ArgLines(cmdStartArgs), tail);
  }

  /** The `for (const arg of cmdStartArgs)` loop, over the argument lines:
      appends each line and its `\r\n`, in order. */
  method AppendLines(content: string, lines: seq<string>) returns (out: string)
    ensures out == content + Lines(lines)
  {
    out := content;
    for i := 0 to |lines|
      invariant out == content + Lines(lines[..i])
    {
      LinesSnoc(lines[..i], lines[i]);
      assert lines[..i + 1] == lines[..i] + [lines[i]];
      out := out + lines[i] + Nl;
    }
    assert lines[..|lines|] == lines;
  }

  lemma LinesSnoc(ls: seq<string>, line: string)
    ensures Lines(ls + [line]) == Lines(ls) + line + Nl
  {
    assert (ls + [line])[..|ls|] == ls;
  }

  /** The start phrase has three words. */
  lemma StartWords()
    ensures Split(StartPhrase, ' ') == ["service", "db", "start"]
  {
    var words := ["service", "db", "start"];
    assert Join(words, " ") == StartPhrase by {
      assert words[1..] == ["db", "start"];
      assert words[1..][1..] == ["start"];
    }
    SplitJoin(words, ' ');
  }

  /** The program arguments are the executable followed by each
      space-separated word of the phrase, closed by the end of the array. */
  lemma DarwinProgramArguments(s: Service, phrase: string, localStorage: string)
    ensures var ls, words := DarwinLines(s, phrase, localStorage), Split(phrase, ' ');
      && |ls| == 24 + |words|
      && ls[9] == ArrayOpen
      && ls[10] == StringLine(s.execPath)
      && (forall i :: 0 <= i < |words| ==> ls[11 + i] == StringLine(words[i]))
      && ls[11 + |words|] == ArrayClose
  {
  }

  /** The pieces between line feeds: each line followed by its carriage
      return. */
  function CrParts(ls: seq<string>): (r: seq<string>)
    ensures |r| == |ls| && forall i :: 0 <= i < |ls| ==> r[i] == ls[i] + "\r"
  {
    seq(|ls|, i requires 0 <= i < |ls| => ls[i] + "\r")
  }

  lemma {:induction false} JoinSnoc(ps: seq<string>, x: string, sep: string)
    requires |ps| >= 1
    ensures Join(ps + [x], sep) == Join(ps, sep) + sep + x
    decreases |ps|
  {
    if |ps| > 1 {
      assert (ps + [x])[1..] == ps[1..] + [x];
      JoinSnoc(ps[1..], x, sep);
    } else {
      assert ps + [x] == [ps[0], x];
      assert [ps[0], x][1..] == [x];
    }
  }

  /** The lines written out are their line-feed-joined pieces and a final
      line feed. */
  lemma {:induction false} LinesAsJoin(ls: seq<string>)
    requires |ls| >= 1
    ensures Lines(ls) == Join(CrParts(ls), "\n") + "\n"
    decreases |ls|
  {
    var init, last := ls[..|ls| - 1], ls[|ls| - 1];
    if |init| >= 1 {
      LinesAsJoin(init);
      assert CrParts(ls) == CrParts(init) + [last + "\r"];
      JoinSnoc(CrParts(init), last + "\r", "\n");
    } else {
      assert CrParts(ls) == [last + "\r"];
    }
  }

  /** Every line of a generated file ends with `\r\n`: split at line feeds,
      the text is each line with its carriage return, then nothing. */
  lemma EveryLineEndsCrLf(ls: seq<string>)
    requires |ls| >= 1
    requires forall i :: 0 <= i < |ls| ==> '\n' !in ls[i]
    ensures Split(Lines(ls), '\n') == CrParts(ls) + [""]
  {
    var parts := CrParts(ls) + [""];
    assert Lines(ls) == Join(parts, "\n") by {
      LinesAsJoin(ls);
      JoinSnoc(CrParts(ls), "", "\n");
    }
    PartsFree(ls);
    SplitJoin(parts, '\n');
  }

  lemma PartsFree(ls: seq<string>)
    requires forall i :: 0 <= i < |ls| ==> '\n' !in ls[i]
    ensures forall i :: 0 <= i < |CrParts(ls) + [""]| ==> '\n' !in (CrParts(ls) + [""])[i]
  {
    var parts := CrParts(ls) + [""];
    forall i | 0 <= i < |parts|
      ensures '\n' !in parts[i]
    {
      if i < |ls| {
        assert parts[i] == ls[i] + "\r";
      }
    }
  }

  /** No line of the unit holds a line feed unless an input does. */
  lemma LinuxLinesFree(s: Service, phrase: string, localStorage: string)
    requires '\n' !in s.description && '\n' !in s.execPath && '\n' !in s.name && '\n' !in localStorage
    requires '\n' !in phrase
    ensures forall i :: 0 <= i < |LinuxLines(s, phrase, localStorage)| ==> '\n' !in LinuxLines(s, phrase, localStorage)[i]
  {
    UnitConstantsFree();
    var ls := localStorage;
    NotInJoin('\n', DescriptionKey, s.description);
    NotInJoin('\n', ExecStartKey, s.execPath);
    NotInJoin('\n', ExecStartKey + s.execPath, " ");
    NotInJoin('\n', ExecStartKey + s.execPath + " ", phrase);
    LogLineFree(StdOutKey, ls, "/logs/std/", s.name, ".out.log");
    LogLineFree(StdErrKey, ls, "/logs/err/", s.name, ".err.log");
    var head := [UnitSection, DescriptionKey + s.description, "", ServiceSection, ExecStartKey + s.execPath + " " + phrase];
    var logs := [StdOutKey + ls + "/logs/std/" + s.name + ".out.log", StdErrKey + ls + "/logs/err/" + s.name + ".err.log"];
    assert AllFree(head);
    assert AllFree(logs);
    AllFreeCat(head, RestartPolicy);
    AllFreeCat(head + RestartPolicy, logs);
    AllFreeCat(head + RestartPolicy + logs, InstallSection);
  }

  /** No line of the list holds a line feed. */
  predicate AllFree(ls: seq<string>) {
    forall i :: 0 <= i < |ls| ==> '\n' !in ls[i]
  }

  lemma AllFreeCat(a: seq<string>, b: seq<string>)
    requires AllFree(a) && AllFree(b)
    ensures AllFree(a + b)
  {
    forall i | 0 <= i < |a + b| ensures '\n' !in (a + b)[i] {
      if i >= |a| {
        assert (a + b)[i] == b[i - |a|];
      }
    }
  }

  lemma NotInJoin(c: char, a: string, b: string)
    requires c !in a && c !in b
    ensures c !in a + b
  {
    forall k | 0 <= k < |a + b| ensures (a + b)[k] != c {
      if k < |a| {
        assert (a + b)[k] == a[k];
      } else {
        assert (a + b)[k] == b[k - |a|];
      }
    }
  }

  /** `<key><dir><sub><name><ext>` has no line feed when none of its parts has. */
  lemma LogLineFree(key: string, dir: string, sub: string, name: string, ext: string)
    requires '\n' !in key && '\n' !in dir && '\n' !in sub && '\n' !in name && '\n' !in ext
    ensures '\n' !in key + dir + sub + name + ext
  {
    NotInJoin('\n', key, dir);
    NotInJoin('\n', key + dir, sub);
    NotInJoin('\n', key + dir + sub, name);
    NotInJoin('\n', key + dir + sub + name, ext);
  }

  /** None of the unit's fixed pieces holds a line feed. */
  lemma UnitConstantsFree()
    ensures '\n' !in UnitSection && '\n' !in DescriptionKey && '\n' !in ServiceSection && '\n' !in ExecStartKey
    ensures '\n' !in StdOutKey && '\n' !in StdErrKey && '\n' !in " "
    ensures '\n' !in "/logs/std/" && '\n' !in "/logs/err/" && '\n' !in ".out.log" && '\n' !in ".err.log"
    ensures AllFree(RestartPolicy) && AllFree(InstallSection)
  {
    ListsFree();
    assert '\n' !in UnitSection;
    assert '\n' !in DescriptionKey;
    assert '\n' !in ServiceSection;
    assert '\n' !in StdOutKey;
    assert '\n' !in StdErrKey;
    assert '\n' !in "/logs/std/";
    assert '\n' !in "/logs/err/";
  }

  /** Nor do the lines of its `[Service]` policy and `[Install]` section. */
  lemma ListsFree()
    ensures AllFree(RestartPolicy) && AllFree(InstallSection)
  {
    assert '\n' !in RestartPolicy[0] && '\n' !in RestartPolicy[1];
    assert '\n' !in RestartPolicy[2] && '\n' !in RestartPolicy[3];
    assert '\n' !in InstallSection[1] && '\n' !in InstallSection[2];
  }

  /** The systemd unit runs `<execPath> <phrase>` on its fifth line, and
      every line ends with `\r\n`. */
  lemma LinuxUnit(s: Service, phrase: string, localStorage: string)
    requires '\n' !in s.description && '\n' !in s.execPath && '\n' !in s.name && '\n' !in localStorage
    requires '\n' !in phrase
    ensures var parts := Split(GenerateLinux(s, phrase, localStorage), '\n');
      && |parts| == 15 && parts[14] == ""
      && parts[4] == ExecStartKey + s.execPath + " " + phrase + "\r"
      && forall i :: 0 <= i < 14 ==> EndsWith(parts[i], "\r")
  {
    var ls := LinuxLines(s, phrase, localStorage);
    LinuxLinesFree(s, phrase, localStorage);
    EveryLineEndsCrLf(ls);
    var parts := CrParts(ls) + [""];
    forall i | 0 <= i < 14
      ensures EndsWith(parts[i], "\r")
    {
      assert parts[i] == ls[i] + "\r";
      assert parts[i][|parts[i]| - 1..] == "\r";
    }
  }

  // ---- writing and starting ----

  /** `getServiceFileContent` */
  method ServiceFileContent(s: Service, os: string, phrase: string, localStorage: string) returns (r: Option<string>)
    ensures r == ServiceContent(s, os, phrase, localStorage)
  {
    if os == "darwin" {
      var content := GenerateDarwin(s, phrase, localStorage);
      return Some(content);
    } else if os == "linux" {
      return Some(GenerateLinux(s, phrase, localStorage));
    }
    return None;
  }

  /** The generated content for a supported system. */
  function ServiceContent(s: Service, os: string, phrase: string, localStorage: string): (r: Option<string>)
    ensures r.Some? <==> os == "darwin" || os == "linux"
    ensures r.Some? ==> r.value != ""
  {
    if os == "darwin" then Some(Lines(DarwinLines(s, phrase, localStorage)))
    else if os == "linux" then Some(GenerateLinux(s, phrase, localStorage))
    else None
  }

  /** What `createServiceFile` did: nothing, or write the file after making
      sure its directory exists. */
  datatype Action = UpToDate | Created(dir: string)

  type Files = map<string, string>

  /** The files once the service file is in place: unchanged on an
      unsupported system, otherwise with the generated content at the
      service file's path. */
  function Written(s: Service, os: string, phrase: string, localStorage: string, files: Files): Files {
    var path := ServiceFilePath(s, os);
    if path.None? then files else files[path.value := ServiceContent(s, os, phrase, localStorage).value]
  }

  /** `createServiceFile`: fails on an unsupported system, leaves an
      identical file alone, and otherwise writes the content. */
  method CreateServiceFile(s: Service, os: string, phrase: string, localStorage: string, files: Files)
    returns (r: Result<Action>, after: Files)
    ensures ServiceFilePath(s, os).None? ==> r == Err("Unsupported OS: " + os) && after == files
    ensures ServiceFilePath(s, os).Some? ==>
      var path, content := ServiceFilePath(s, os).value, ServiceContent(s, os, phrase, localStorage).value;
      var current := if path in files then files[path] else "";
      if current == content then r == Ok(UpToDate) && after == files
      else r == Ok(Created(ParentDir(path))) && after == files[path := content]
    ensures r.Ok? <==> ServiceFilePath(s, os).Some?
    ensures after == Written(s, os, phrase, localStorage, files)
  {
    after := files;
    var serviceFilePath := ServiceFilePath(s, os);
    var serviceFileContent := ServiceFileContent(s, os, phrase, localStorage);
    if serviceFilePath.None? || serviceFileContent.None? || serviceFileContent.value == "" {
      return Err("Unsupported OS: " + os), after;
    }
    var path := serviceFilePath.value;
    var currentContent := "";
    if path in files {
      currentContent := files[path];
    }
    if currentContent == serviceFileContent.value {
      assert path in files;
      assert files[path := serviceFileContent.value] == files;
      return Ok(UpToDate), after;
    }
    after := files[path := serviceFileContent.value];
    r := Ok(Created(ParentDir(path)));
  }

  /** On a supported system the service file holds the generated content
      afterwards and no other file changes; otherwise nothing changes. */
  lemma WrittenContent(s: Service, os: string, phrase: string, localStorage: string, files: Files)
    ensures ServiceFilePath(s, os).None? ==> Written(s, os, phrase, localStorage, files) == files
    ensures ServiceFilePath(s, os).Some? ==>
      var path, after := ServiceFilePath(s, os).value, Written(s, os, phrase, localStorage, files);
      && path in after && after[path] == ServiceContent(s, os, phrase, localStorage).value
      && after[path] != ""
      && (forall p :: p in files && p != path ==> p in after && after[p] == files[p])
      && (forall p :: p in after ==> p in files || p == path)
  {
  }

  /** `startServiceForDarwin` / `startServiceForLinux` */
  function StartCommand(s: Service, os: string): (r: Option<seq<string>>)
    ensures r.Some? <==> os == "darwin" || os == "linux"
    ensures r.Some? ==> |r.value| == 3 && r.value[2] == ServiceFilePath(s, os).value
  {
    var path := ServiceFilePath(s, os);
    if path.None? then None
    else if os == "darwin" then Some(["launchctl", "load", path.value])
    else Some(["systemctl", "start", path.value])
  }

  /** `install(run)`: the service file, then the start command exactly when
      `run` is set. */
  method Install(s: Service, run: bool, os: string, phrase: string, localStorage: string, files: Files)
    returns (r: Result<Option<seq<string>>>, after: Files)
    ensures ServiceFilePath(s, os).None? ==> r == Err("Unsupported OS: " + os)
    ensures ServiceFilePath(s, os).Some? ==> r.Ok? && (r.value.Some? <==> run)
    ensures os == "darwin" && r.Ok? && run ==> r.value == Some(["launchctl", "load", ServiceFilePath(s, os).value])
    ensures os == "linux" && r.Ok? && run ==> r.value == Some(["systemctl", "start", ServiceFilePath(s, os).value])
    ensures after == Written(s, os, phrase, localStorage, files)
  {
    var created;
    created, after := CreateServiceFile(s, os, phrase, localStorage, files);
    if created.Err? {
      r := Err(created.error);
    } else {
      r := Ok(if run then StartCommand(s, os) else None);
    }
  }
}
