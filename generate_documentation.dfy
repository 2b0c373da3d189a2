/** `generateDocumentation`: the help text of a command, with usage,
    description and padded tables of commands, arguments and options.
    The colour codes are parameters. */
module GenerateDocumentation {
  import opened JsString

  /** `colorTheme` */
  datatype Theme = Theme(heading: string, key: string, description: string)

  /** An element of an option row: text, or a list of texts. */
  datatype Cell = Text(text: string) | List(items: seq<string>)

  datatype DocArgs = DocArgs(usage: string, description: string,
                             commands: seq<seq<string>>, arguments: seq<seq<string>>,
                             options: seq<seq<Cell>>)

  // ---- getLongestItem ----

  /** The first item of greatest length, or `""` for no items. */
  function LongestItem(arr: seq<string>): (r: string)
    ensures |arr| == 0 ==> r == ""
    ensures forall j :: 0 <= j < |arr| ==> |arr[j]| <= |r|
    ensures |arr| > 0 ==> exists i :: 0 <= i < |arr| && arr[i] == r && forall j :: 0 <= j < i ==> |arr[j]| < |r|
  {
    if |arr| == 0 then ""
    else
      var init, last := arr[..|arr| - 1], arr[|arr| - 1];
      var prev := LongestItem(init);
      assert forall j :: 0 <= j < |init| ==> arr[j] == init[j];
      if |last| > |prev| then last else prev
  }

  /** `getLongestItem`: the first item of greatest length, or `""`. */
  method GetLongestItem(arr: seq<string>) returns (longest: string)
    ensures longest == LongestItem(arr)
  {
    if |arr| == 0 {
      return "";
    }
    longest := arr[0];
    assert arr[..1][..0] == [];
    for i := 1 to |arr|
      invariant longest == LongestItem(arr[..i])
    {
      assert arr[..i + 1][..i] == arr[..i];
      if |arr[i]| > |longest| {
        longest := arr[i];
      }
    }
    assert arr[..|arr|] == arr;
  }

  // ---- rows ----

  /** `row?.[k] || ''` */
  function At(row: seq<string>, k: nat): string {
    if k < |row| then row[k] else ""
  }

  /** A cell as a template literal shows it: a list joined with commas. */
  function CellText(c: Cell): string {
    match c
    case Text(t) => t
    case List(items) => Join(items, ",")
  }

  /** `opt?.[1] || ''` */
  function OptionDescription(opt: seq<Cell>): string {
    if 1 < |opt| then CellText(opt[1]) else ""
  }

  /** `isArray(opt?.[0]) ? opt?.[0] : [opt?.[0] || '']` */
  function OptionNames(opt: seq<Cell>): seq<string> {
    if |opt| == 0 then [""]
    else match opt[0]
      case List(items) => items
      case Text(t) => [t]
  }

  /** The uncoloured option key, `optArray.join(', ')`. */
  function OptionKey(opt: seq<Cell>): string {
    Join(OptionNames(opt), ", ")
  }

  function Colored(names: seq<string>, theme: Theme, reset: string): (r: seq<string>)
    ensures |r| == |names| && forall i :: 0 <= i < |names| ==> r[i] == theme.key + names[i] + reset
  {
    seq(|names|, i requires 0 <= i < |names| => theme.key + names[i] + reset)
  }

  function FirstCells(rows: seq<seq<string>>): (r: seq<string>)
    ensures |r| == |rows| && forall i :: 0 <= i < |rows| ==> r[i] == At(rows[i], 0)
  {
    seq(|rows|, i requires 0 <= i < |rows| => At(rows[i], 0))
  }

  function OptionKeys(options: seq<seq<Cell>>): (r: seq<string>)
    ensures |r| == |options| && forall i :: 0 <= i < |options| ==> r[i] == OptionKey(options[i])
  {
    seq(|options|, i requires 0 <= i < |options| => OptionKey(options[i]))
  }

  /** `new Array(width - |key| || 0).fill(' ').join('')` */
  function Fill(plain: string, width: nat): string {
    Repeat(' ', if |plain| <= width then width - |plain| else 0)
  }

  /** One table line: the key text, its fill, and the description. */
  function Line(theme: Theme, reset: string, keyText: string, fill: string, description: string): string {
    "  " + theme.key + keyText + fill + reset + "  " + theme.description + description + reset
  }

  function RowLines(rows: seq<seq<string>>, theme: Theme, reset: string): (r: seq<string>)
    ensures |r| == |rows|
    ensures var width := |LongestItem(FirstCells(rows))|;
      forall i :: 0 <= i < |rows| ==>
        r[i] == Line(theme, reset, At(rows[i], 0), Fill(At(rows[i], 0), width), At(rows[i], 1))
  {
    var width := |LongestItem(FirstCells(rows))|;
    seq(|rows|, i requires 0 <= i < |rows| =>
      Line(theme, reset, At(rows[i], 0), Fill(At(rows[i], 0), width), At(rows[i], 1)))
  }

  function OptionLines(options: seq<seq<Cell>>, theme: Theme, reset: string): (r: seq<string>)
    ensures |r| == |options|
    ensures var width := |LongestItem(OptionKeys(options))|;
      forall i :: 0 <= i < |options| ==>
        r[i] == Line(theme, reset, Join(Colored(OptionNames(options[i]), theme, reset), ", "),
                     Fill(OptionKey(options[i]), width), OptionDescription(options[i]))
  {
    var width := |LongestItem(OptionKeys(options))|;
    seq(|options|, i requires 0 <= i < |options| =>
      Line(theme, reset, Join(Colored(OptionNames(options[i]), theme, reset), ", "),
           Fill(OptionKey(options[i]), width), OptionDescription(options[i])))
  }

  /** A heading line followed by one line per entry. */
  function Section(theme: Theme, reset: string, title: string, lines: seq<string>): string {
    theme.heading + title + ":" + reset + "\n" + Join(lines, "\n")
  }

  /** A part after the usage line: a blank line, then the body. */
  function BlankLed(body: string): (r: string)
    ensures StartsWith(r, "\n\n") && |r| == |body| + 2
  {
    "\n\n" + body
  }

  function UsagePart(args: DocArgs, theme: Theme, reset: string): string {
    if |args.usage| > 0 then theme.heading + "Usage: " + reset + theme.key + args.usage + reset else ""
  }

  function DescriptionPart(args: DocArgs, theme: Theme, reset: string): string {
    if |args.description| > 0 then
      BlankLed(theme.heading + "Description:" + reset + " " + theme.description + args.description + reset)
    else ""
  }

  function CommandsPart(args: DocArgs, theme: Theme, reset: string): string {
    if |args.commands| > 0 then BlankLed(Section(theme, reset, "Commands", RowLines(args.commands, theme, reset))) else ""
  }

  function ArgumentsPart(args: DocArgs, theme: Theme, reset: string): string {
    if |args.arguments| > 0 then BlankLed(Section(theme, reset, "Arguments", RowLines(args.arguments, theme, reset))) else ""
  }

  function OptionsPart(args: DocArgs, theme: Theme, reset: string): string {
    if |args.options| > 0 then BlankLed(Section(theme, reset, "Options", OptionLines(args.options, theme, reset))) else ""
  }

  /** `generateDocumentation` */
  function Generate(args: DocArgs, theme: Theme, reset: string): string {
    UsagePart(args, theme, reset) + DescriptionPart(args, theme, reset) + CommandsPart(args, theme, reset)
    + ArgumentsPart(args, theme, reset) + OptionsPart(args, theme, reset) + "\n"
  }

  // ---- properties ----

  /** Every key is filled with spaces up to the longest key of its table. */
  lemma KeysPadded(keys: seq<string>, i: nat)
    requires i < |keys|
    ensures |keys[i] + Fill(keys[i], |LongestItem(keys)|)| == |LongestItem(keys)|
    ensures forall j :: |keys[i]| <= j < |LongestItem(keys)| ==> (keys[i] + Fill(keys[i], |LongestItem(keys)|))[j] == ' '
  {
  }

  /** Command and argument keys line up at the longest key. */
  lemma RowKeysPadded(rows: seq<seq<string>>, i: nat)
    requires i < |rows|
    ensures var key := At(rows[i], 0);
      |key + Fill(key, |LongestItem(FirstCells(rows))|)| == |LongestItem(FirstCells(rows))|
  {
    KeysPadded(FirstCells(rows), i);
  }

  /** Option keys line up on their uncoloured text, whatever the colours. */
  lemma OptionKeysPadded(options: seq<seq<Cell>>, i: nat)
    requires i < |options|
    ensures var key := OptionKey(options[i]);
      |key + Fill(key, |LongestItem(OptionKeys(options))|)| == |LongestItem(OptionKeys(options))|
  {
    KeysPadded(OptionKeys(options), i);
  }

  /** A section's body splits back into its lines, one per entry in input
      order, when no part of it holds a line break. */
  lemma LinesInOrder(theme: Theme, reset: string, title: string, lines: seq<string>)
    requires |lines| >= 1
    requires forall i :: 0 <= i < |lines| ==> '\n' !in lines[i]
    ensures var s := Section(theme, reset, title, lines);
      var head := theme.heading + title + ":" + reset + "\n";
      StartsWith(s, head) && Split(s[|head|..], '\n') == lines
  {
    var head := theme.heading + title + ":" + reset + "\n";
    var s := Section(theme, reset, title, lines);
    assert s[|head|..] == Join(lines, "\n");
    SplitJoin(lines, '\n');
  }

  /** Nothing to document renders as a lone line break; every output ends
      with one. */
  lemma EmptyAndEnding(args: DocArgs, theme: Theme, reset: string)
    ensures EndsWith(Generate(args, theme, reset), "\n")
    ensures (args.usage == "" && args.description == "" && args.commands == [] && args.arguments == []
             && args.options == []) ==> Generate(args, theme, reset) == "\n"
  {
  }

  /** Each section is there exactly when its input is non-empty, in the order
      usage, description, commands, arguments, options, separated by a blank
      line. */
  lemma SectionsPresent(args: DocArgs, theme: Theme, reset: string)
    ensures UsagePart(args, theme, reset) != "" <==> |args.usage| > 0
    ensures DescriptionPart(args, theme, reset) != "" <==> |args.description| > 0
    ensures CommandsPart(args, theme, reset) != "" <==> |args.commands| > 0
    ensures ArgumentsPart(args, theme, reset) != "" <==> |args.arguments| > 0
    ensures OptionsPart(args, theme, reset) != "" <==> |args.options| > 0
    ensures |args.description| > 0 ==> StartsWith(DescriptionPart(args, theme, reset), "\n\n")
    ensures |args.commands| > 0 ==> StartsWith(CommandsPart(args, theme, reset), "\n\n")
    ensures |args.arguments| > 0 ==> StartsWith(ArgumentsPart(args, theme, reset), "\n\n")
    ensures |args.options| > 0 ==> StartsWith(OptionsPart(args, theme, reset), "\n\n")
  {
  }
}
