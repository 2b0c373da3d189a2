/** `getCallingFunctionName`: the function name read from one line of an
    `Error().stack` trace. The stack text is a parameter. */
module CallingFunctionName {
  import opened Wrappers
  import opened JsString

  const Unknown := "Unknown"

  /** The defaults of `offset` and `unknown`, which the logger's call relies on. */
  const DefaultOffset := 4
  const DefaultUnknown := false

  /** `undefined.trim()` when the stack has no line at `offset`. */
  const NoFrameError := "TypeError: Cannot read properties of undefined (reading 'trim')"

  /** The text between the first space and the last `" ("` of a trimmed
      frame line, with `substring`'s clamping and swapping. */
  function FrameName(line: string): string {
    Substring(line, IndexOfChar(line, ' ') + 1, LastIndexOf(line, " ("))
  }

  /** An empty name or the bare `"at "` becomes `Unknown`. */
  function NameOrUnknown(name: string): (r: string)
    ensures r == Unknown <==> name == "" || name == "at " || name == Unknown
    ensures r != Unknown ==> r == name
  {
    if |name| == 0 || name == "at " then Unknown else name
  }

  /** `stack` is `None` when the runtime gives no trace; a call without
      arguments passes `DefaultOffset` and `DefaultUnknown`. */
  function GetCallingFunctionName(stack: Option<string>, offset: int, unknown: bool): (r: Result<string>)
    ensures (stack.None? || stack.value == "" || unknown) ==> r == Ok(Unknown)
    ensures r.Err? <==> !(stack.None? || stack.value == "" || unknown)
                        && !(0 <= offset < |Split(stack.value, '\n')|)
    ensures r.Err? ==> r.error == NoFrameError
    ensures r.Ok? && !(stack.None? || stack.value == "" || unknown) ==>
      r.value == NameOrUnknown(FrameName(Trim(Split(stack.value, '\n')[offset])))
  {
    if stack.None? || stack.value == "" || unknown then Ok(Unknown)
    else
      var lines := Split(stack.value, '\n');
      if offset < 0 || offset >= |lines| then Err(NoFrameError)
      else Ok(NameOrUnknown(FrameName(Trim(lines[offset]))))
  }

  /** A line with a space and a later `" ("` yields what lies between the
      first and the last of them. */
  lemma NameBetween(line: string)
    requires IndexOfChar(line, ' ') + 1 <= LastIndexOf(line, " (")
    ensures FrameName(line) == line[IndexOfChar(line, ' ') + 1..LastIndexOf(line, " (")]
  {
  }

  /** Without any `" ("` the bounds swap, and the name is the line up to and
      including its first space; with no space at all (`IndexOfChar` is -1)
      it is empty. */
  lemma NoLocation(line: string)
    requires LastIndexOf(line, " (") == -1
    ensures FrameName(line) == line[..IndexOfChar(line, ' ') + 1]
    ensures IndexOfChar(line, ' ') == -1 ==> FrameName(line) == ""
  {
    SwappedToStart(line, IndexOfChar(line, ' ') + 1, LastIndexOf(line, " ("));
  }

  /** `substring(e, -1)` is the text before `e`. */
  lemma SwappedToStart(s: string, e: int, b: int)
    requires 0 <= e <= |s| && b == -1
    ensures Substring(s, e, b) == s[..e]
  {
    assert Clamp(b, |s|) == 0;
  }

  /** `TrimStart` removes a run of leading spaces before a non-space. */
  lemma {:induction false} TrimStartIndent(k: nat, s: string)
    requires |s| > 0 && !IsSpace(s[0])
    ensures TrimStart(Repeat(' ', k) + s) == s
    decreases k
  {
    if k == 0 {
      assert Repeat(' ', 0) + s == s;
    } else {
      var t := Repeat(' ', k) + s;
      RepeatFront(k);
      assert t[0] == ' ' && t[1..] == Repeat(' ', k - 1) + s;
      TrimStartIndent(k - 1, s);
    }
  }

  /** `trim` takes off an indentation of spaces and nothing else when the
      text neither starts nor ends with white space. */
  lemma TrimIndent(k: nat, s: string)
    requires |s| > 0 && !IsSpace(s[0]) && !IsSpace(s[|s| - 1])
    ensures Trim(Repeat(' ', k) + s) == s
  {
    TrimStartIndent(k, s);
  }

  lemma {:induction false} RepeatFront(k: nat)
    requires k > 0
    ensures Repeat(' ', k) == [' '] + Repeat(' ', k - 1)
    decreases k
  {
    if k > 1 {
      RepeatFront(k - 1);
    }
  }

  /** A V8-style frame `"at <name> (<location>)"` gives back its name, for
      any indentation and whenever the location holds no `" ("`. */
  lemma FrameRoundTrip(k: nat, name: string, location: string)
    requires forall i :: !OccursAt(location, " (", i)
    ensures FrameName(Trim(Repeat(' ', k) + Frame(name, location))) == name
  {
    var f := Frame(name, location);
    assert f[0] == 'a' && f[|f| - 1] == ')';
    TrimIndent(k, f);
    FrameNameOf(name, location);
  }

  /** The frame line V8 writes for a named function. */
  function Frame(name: string, location: string): string {
    "at " + name + " (" + location + ")"
  }

  lemma FrameNameOf(name: string, location: string)
    requires forall i :: !OccursAt(location, " (", i)
    ensures FrameName(Frame(name, location)) == name
  {
    var f := Frame(name, location);
    assert IndexOfChar(f, ' ') == 2 by {
      assert f[2] == ' ' && ' ' !in f[..2];
    }
    LocationOpensLast(name, location);
    assert f[3..3 + |name|] == name;
  }

  /** The `" ("` after the name is the last one in the frame. */
  lemma LocationOpensLast(name: string, location: string)
    requires forall i :: !OccursAt(location, " (", i)
    ensures LastIndexOf(Frame(name, location), " (") == 3 + |name|
  {
    var f := Frame(name, location);
    var p := 3 + |name|;
    assert OccursAt(f, " (", p) by {
      assert f[p..p + 2] == " (";
    }
    forall i | p < i
      ensures !OccursAt(f, " (", i)
    {
      NoLaterOpening(name, location, i);
    }
  }

  lemma NoLaterOpening(name: string, location: string, i: int)
    requires forall i :: !OccursAt(location, " (", i)
    requires 3 + |name| < i
    ensures !OccursAt("at " + name + " (" + location + ")", " (", i)
  {
    var f := "at " + name + " (" + location + ")";
    var p := 3 + |name|;
    if i + 2 <= |f| {
      if i == p + 1 {
        assert f[i] == '(';
      } else if i + 1 == |f| - 1 {
        assert f[i + 1] == ')';
      } else {
        var j := i - (p + 2);
        assert f[i..i + 2] == location[j..j + 2];
        assert !OccursAt(location, " (", j);
      }
    }
  }

  /** The whole call on a trace whose line at `offset` is such a frame. */
  lemma NamedCaller(stack: string, offset: nat, k: nat, name: string, location: string)
    requires stack != ""
    requires forall i :: !OccursAt(location, " (", i)
    requires offset < |Split(stack, '\n')|
    requires Split(stack, '\n')[offset] == Repeat(' ', k) + Frame(name, location)
    requires name != "" && name != "at " && name != Unknown
    ensures GetCallingFunctionName(Some(stack), offset, false) == Ok(name)
  {
    FrameRoundTrip(k, name, location);
  }
}
