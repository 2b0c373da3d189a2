/** The installer's shell-profile edit: choose the profile from `SHELL`,
    drop every `# WPD - BEGIN` ... `# WPD - END` block from it, and append
    one fresh block that puts the CLI's main directory on `PATH`. The
    environment and the file system are parameters. */
module ShellProfile {
  import opened Wrappers
  import opened JsString

  const Begin := "# WPD - BEGIN"
  const End := "# WPD - END"

  type Files = map<string, string>

  /** The profile file name for the login shell: `.zshrc` for zsh,
      `.bashrc` for bash, none for any other or a missing `SHELL`. */
  function ProfileName(shell: Option<string>): (r: Option<string>)
    ensures r == Some(".zshrc") <==> shell == Some("/bin/zsh")
    ensures r == Some(".bashrc") <==> shell == Some("/bin/bash")
    ensures r.None? <==> shell != Some("/bin/zsh") && shell != Some("/bin/bash")
  {
    match shell
    case Some("/bin/zsh") => Some(".zshrc")
    case Some("/bin/bash") => Some(".bashrc")
    case _ => None
  }

  /** `${Deno.env.get('HOME')}`: an unset variable prints as `undefined`. */
  function HomeText(home: Option<string>): string {
    if home.Some? then home.value else "undefined"
  }

  /** The line that extends `PATH` with the main directory. */
  function PathLine(mainDir: string): string {
    "PATH=\"${PATH}:" + mainDir + "\""
  }

  /** The block appended to the profile. */
  function Block(mainDir: string): seq<string> {
    [Begin, PathLine(mainDir), End]
  }

  // ---- the forEach over the profile's lines ----

  /** `wpdContentBoolean` once the first `n` lines have been visited: a
      line holding the end marker clears it, otherwise a line holding the
      begin marker sets it. */
  function InsideAfter(lines: seq<string>, n: nat): bool
    requires n <= |lines|
  {
    if n == 0 then false
    else if Includes(lines[n - 1], End) then false
    else InsideAfter(lines, n - 1) || Includes(lines[n - 1], Begin)
  }

  /** Whether visiting line `i` pushes it: the flag, set by this very line
      when it holds the begin marker, is clear, and the line is not an
      empty last line. */
  predicate Pushed(lines: seq<string>, i: nat)
    requires i < |lines|
  {
    && !(InsideAfter(lines, i) || Includes(lines[i], Begin))
    && !(i == |lines| - 1 && lines[i] == "")
  }

  /** `newContent` after the first `n` visits. */
  function KeptUpTo(lines: seq<string>, n: nat): seq<string>
    requires n <= |lines|
  {
    if n == 0 then []
    else KeptUpTo(lines, n - 1) + (if Pushed(lines, n - 1) then [lines[n - 1]] else [])
  }

  /** `newContent` after the whole forEach. */
  function Kept(lines: seq<string>): seq<string> {
    KeptUpTo(lines, |lines|)
  }

  /** The forEach, then the push of the block. */
  method RewriteLines(lines: seq<string>, mainDir: string) returns (newContent: seq<string>)
    ensures newContent == Kept(lines) + Block(mainDir)
  {
    newContent := [];
    var inside := false;
    for index := 0 to |lines|
      invariant newContent == KeptUpTo(lines, index)
      invariant inside == InsideAfter(lines, index)
    {
      var line := lines[index];
      var isLastLine := index == |lines| - 1;
      if Includes(line, Begin) {
        inside := true;
      }
      if inside == false && !(isLastLine && line == "") {
        newContent := newContent + [line];
      }
      if Includes(line, End) {
        inside := false;
      }
    }
    newContent := newContent + Block(mainDir);
  }

  /** The text written back: the new lines joined by newlines, with a
      final newline. */
  function ProfileText(content: string, mainDir: string): string {
    Join(Kept(Split(content, '\n')) + Block(mainDir), "\n") + "\n"
  }

  /** `Deno.readTextFileSync` on a missing file. */
  function ReadError(path: string): string {
    "No such file or directory (os error 2): readfile '" + path + "'"
  }

  /** The installer's profile step: the profile edited, or `None` when the
      shell is not supported and nothing is written. */
  method UpdateProfile(shell: Option<string>, home: Option<string>, mainDir: string, files: Files)
    returns (r: Result<Option<string>>, after: Files)
    ensures ProfileName(shell).None? ==> r == Ok(None) && after == files
    ensures ProfileName(shell).Some? ==>
      var path := HomeText(home) + "/" + ProfileName(shell).value;
      if path !in files then r == Err(ReadError(path)) && after == files
      else r == Ok(Some(path)) && after == files[path := ProfileText(files[path], mainDir)]
  {
    var profile := ProfileName(shell);
    if profile.None? {
      return Ok(None), files;
    }
    var profileFilename := HomeText(home) + "/" + profile.value;
    if profileFilename !in files {
      return Err(ReadError(profileFilename)), files;
    }
    var splitedProfileContent := Split(files[profileFilename], '\n');
    var newContent := RewriteLines(splitedProfileContent, mainDir);
    after := files[profileFilename := Join(newContent, "\n") + "\n"];
    r := Ok(Some(profileFilename));
  }

  // ---- which lines are dropped ----

  /** A block is open after the first `n` lines: some line before `n`
      holds the begin marker and no line from it up to `n` holds the end
      marker. */
  ghost predicate OpenAfter(lines: seq<string>, n: nat)
    requires n <= |lines|
  {
    exists b :: 0 <= b < n && Includes(lines[b], Begin) && NoEndBetween(lines, b, n)
  }

  /** No line in `lines[from..to]` holds the end marker. */
  predicate NoEndBetween(lines: seq<string>, from: nat, to: nat)
    requires from <= to <= |lines|
  {
    forall k :: from <= k < to ==> !Includes(lines[k], End)
  }

  /** Line `i` lies in a block: it opens one, or one opened earlier is
      still open when it is reached. A block's end line lies in it. */
  ghost predicate InBlock(lines: seq<string>, i: nat)
    requires i < |lines|
  {
    OpenAfter(lines, i) || Includes(lines[i], Begin)
  }

  /** The flag is set exactly when a block is open. */
  lemma {:induction false} InsideIffOpen(lines: seq<string>, n: nat)
    requires n <= |lines|
    ensures InsideAfter(lines, n) <==> OpenAfter(lines, n)
  {
    if n > 0 {
      InsideIffOpen(lines, n - 1);
      if Includes(lines[n - 1], End) {
        ClosedAt(lines, n);
      } else {
        OpenStep(lines, n);
      }
    }
  }

  /** An end line closes every block. */
  lemma ClosedAt(lines: seq<string>, n: nat)
    requires 0 < n <= |lines| && Includes(lines[n - 1], End)
    ensures !OpenAfter(lines, n)
  {
  }

  /** Past any other line a block is open when one was open before it or
      the line opens one. */
  lemma OpenStep(lines: seq<string>, n: nat)
    requires 0 < n <= |lines| && !Includes(lines[n - 1], End)
    ensures OpenAfter(lines, n) <==> OpenAfter(lines, n - 1) || Includes(lines[n - 1], Begin)
  {
    OpenStepWith(lines, n, s => Includes(s, Begin), s => Includes(s, End));
  }

  /** `OpenStep` for any tests of the begin and end markers. */
  lemma OpenStepWith(lines: seq<string>, n: nat, begins: string -> bool, ends: string -> bool)
    requires 0 < n <= |lines| && !ends(lines[n - 1])
    ensures (exists b :: 0 <= b < n && begins(lines[b]) && forall k :: b <= k < n ==> !ends(lines[k]))
        <==> (exists b :: 0 <= b < n - 1 && begins(lines[b]) && forall k :: b <= k < n - 1 ==> !ends(lines[k]))
             || begins(lines[n - 1])
  {
    if exists b :: 0 <= b < n && begins(lines[b]) && forall k :: b <= k < n ==> !ends(lines[k]) {
      var b :| 0 <= b < n && begins(lines[b]) && forall k :: b <= k < n ==> !ends(lines[k]);
      if b < n - 1 {
        assert forall k :: b <= k < n - 1 ==> !ends(lines[k]);
      }
    }
    if exists b :: 0 <= b < n - 1 && begins(lines[b]) && forall k :: b <= k < n - 1 ==> !ends(lines[k]) {
      var b :| 0 <= b < n - 1 && begins(lines[b]) && forall k :: b <= k < n - 1 ==> !ends(lines[k]);
      assert forall k :: b <= k < n ==> !ends(lines[k]);
    }
  }

  /** A line is kept exactly when it lies in no block and is not an empty
      last line; a stray end line outside any block is kept. */
  lemma PushedIff(lines: seq<string>, i: nat)
    requires i < |lines|
    ensures Pushed(lines, i) <==> !InBlock(lines, i) && !(i == |lines| - 1 && lines[i] == "")
  {
    InsideIffOpen(lines, i);
  }

  /** Every line from a begin line through the next end line, both
      included, is dropped. */
  lemma BlockDropped(lines: seq<string>, b: nat, e: nat)
    requires b <= e < |lines|
    requires Includes(lines[b], Begin)
    requires NoEndBetween(lines, b, e)
    ensures forall j :: b <= j <= e ==> !Pushed(lines, j)
  {
    forall j | b <= j <= e
      ensures !Pushed(lines, j)
    {
      if b < j {
        assert NoEndBetween(lines, b, j);
        assert OpenAfter(lines, j);
      }
      PushedIff(lines, j);
    }
  }

  /** A begin line that no end line follows drops the rest of the
      profile. */
  lemma UnterminatedDropsRest(lines: seq<string>, b: nat)
    requires b < |lines|
    requires Includes(lines[b], Begin)
    requires NoEndBetween(lines, b, |lines|)
    ensures forall j :: b <= j < |lines| ==> !Pushed(lines, j)
  {
    BlockDropped(lines, b, |lines| - 1);
  }

  /** A profile without any begin line keeps all its lines, except an
      empty last one. */
  lemma NoBlockKeepsAll(lines: seq<string>)
    requires forall i :: 0 <= i < |lines| ==> !Includes(lines[i], Begin)
    requires |lines| > 0 && lines[|lines| - 1] != ""
    ensures Kept(lines) == lines
  {
    KeptPrefix(lines, |lines|, |lines|);
  }

  // ---- running the installer twice ----

  /** The first `n` lines of a profile whose first `m` lines hold no begin
      marker and are not its last line are all kept, with no block open. */
  lemma {:induction false} KeptPrefix(lines: seq<string>, m: nat, n: nat)
    requires n <= m <= |lines|
    requires forall i :: 0 <= i < m ==> !Includes(lines[i], Begin)
    requires m < |lines| || (m > 0 && lines[m - 1] != "")
    ensures KeptUpTo(lines, n) == lines[..n]
    ensures !InsideAfter(lines, n)
  {
    if n > 0 {
      KeptPrefix(lines, m, n - 1);
      assert lines[..n] == lines[..n - 1] + [lines[n - 1]];
    }
  }

  /** Kept lines come from the profile and hold no begin marker. */
  lemma {:induction false} KeptLines(lines: seq<string>, n: nat)
    requires n <= |lines|
    ensures forall x :: x in KeptUpTo(lines, n) ==> x in lines && !Includes(x, Begin)
  {
    if n > 0 {
      KeptLines(lines, n - 1);
    }
  }

  /** Joining with an empty last piece adds one final separator. */
  lemma {:induction false} JoinEmptyLast(parts: seq<string>, sep: string)
    requires |parts| >= 1
    ensures Join(parts + [""], sep) == Join(parts, sep) + sep
    decreases |parts|
  {
    if |parts| == 1 {
      assert (parts + [""])[1..] == [""];
    } else {
      assert (parts + [""])[1..] == parts[1..] + [""];
      JoinEmptyLast(parts[1..], sep);
    }
  }

  lemma MarkersDiffer()
    ensures Includes(Begin, Begin) && Includes(End, End)
    ensures !Includes(Begin, End)
  {
    assert OccursAt(Begin, Begin, 0);
    assert OccursAt(End, End, 0);
    forall i | 0 <= i
      ensures !OccursAt(Begin, End, i)
    {
      if i == 0 {
        assert Begin[8] != End[8];
      } else if i + |End| <= |Begin| {
        assert Begin[i] != End[0];
      }
    }
  }

  /** Splitting the written text gives the kept lines, the block and one
      empty last piece. */
  lemma SplitWritten(kept: seq<string>, mainDir: string)
    requires forall x :: x in kept ==> '\n' !in x
    requires '\n' !in mainDir
    ensures Split(Join(kept + Block(mainDir), "\n") + "\n", '\n') == kept + Block(mainDir) + [""]
  {
    var parts := kept + Block(mainDir) + [""];
    JoinEmptyLast(kept + Block(mainDir), "\n");
    assert '\n' !in PathLine(mainDir);
    forall i | 0 <= i < |parts|
      ensures '\n' !in parts[i]
    {
      if i < |kept| {
        assert parts[i] in kept;
      }
    }
    SplitJoin(parts, '\n');
  }

  /** Running the profile step again changes nothing: the block written
      the first time is dropped and the same block appended, provided the
      main directory neither breaks the path line nor closes the block. */
  lemma RewriteIdempotent(content: string, mainDir: string)
    requires '\n' !in mainDir
    requires !Includes(PathLine(mainDir), End)
    ensures ProfileText(ProfileText(content, mainDir), mainDir) == ProfileText(content, mainDir)
  {
    var lines := Split(content, '\n');
    var kept := Kept(lines);
    KeptLines(lines, |lines|);
    assert forall x :: x in kept ==> '\n' !in x;
    SplitWritten(kept, mainDir);
    var again := kept + Block(mainDir) + [""];
    var m := |kept|;
    AppendedShape(kept, mainDir);
    KeptPrefix(again, m, m);
    MarkersDiffer();
    BlockThenEmptyDropped(again, m);
  }

  /** The lines of a written profile: the kept lines, the block, and the
      empty string after the final newline. */
  lemma AppendedShape(kept: seq<string>, mainDir: string)
    ensures var again := kept + Block(mainDir) + [""]; var m := |kept|;
      && |again| == m + 4 && again[..m] == kept
      && again[m] == Begin && again[m + 1] == PathLine(mainDir) && again[m + 2] == End && again[m + 3] == ""
  {
    var again := kept + Block(mainDir) + [""];
    assert again[..|kept|] == kept;
  }

  /** After kept lines with no block open, a begin line, a line without
      the end marker, an end line and an empty last line add nothing. */
  lemma BlockThenEmptyDropped(lines: seq<string>, m: nat)
    requires |lines| == m + 4
    requires KeptUpTo(lines, m) == lines[..m] && !InsideAfter(lines, m)
    requires Includes(lines[m], Begin) && !Includes(lines[m], End)
    requires !Includes(lines[m + 1], End)
    requires Includes(lines[m + 2], End)
    requires lines[m + 3] == ""
    ensures Kept(lines) == lines[..m]
  {
    assert !Pushed(lines, m) && InsideAfter(lines, m + 1);
    assert KeptUpTo(lines, m + 1) == lines[..m];
    assert !Pushed(lines, m + 1) && InsideAfter(lines, m + 2);
    assert KeptUpTo(lines, m + 2) == lines[..m];
    assert !Pushed(lines, m + 2) && !Pushed(lines, m + 3);
    assert KeptUpTo(lines, m + 3) == lines[..m];
  }
}
