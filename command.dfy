/** `classCommand`: the base class every CLI command extends. Its logging,
    emoji and random greetings are left to the caller; `prompt` answers are
    an oracle. */
module CommandBase {
  import opened Wrappers
  import opened JsString
  import opened CliParser

  /** What a validator returns: `true`, or a message. */
  datatype Validation = Accepted | Rejected(message: string)

  // ---- validateEnvName ----

  /** `[A-Za-z0-9-_]` */
  predicate IsEnvNameChar(c: char) {
    ('A' <= c <= 'Z') || ('a' <= c <= 'z') || ('0' <= c <= '9') || c == '-' || c == '_'
  }

  /** `/^[A-Za-z0-9-_]+$/.test(name)` */
  predicate IsEnvName(name: string) {
    |name| > 0 && forall i :: 0 <= i < |name| ==> IsEnvNameChar(name[i])
  }

  function EnvNameError(name: string): string {
    "Invalid environment name \"" + name + "\". Only A-z 0-9 - _ are allowed!"
  }

  /** `validateEnvName`; the regular expression turns `undefined` into the
      text `"undefined"`, which it accepts. */
  function ValidateEnvName(name: Option<string>): (r: Validation)
    ensures r.Rejected? ==> r.message == EnvNameError(name.GetOr("undefined"))
  {
    var text := name.GetOr("undefined");
    if IsEnvName(text) then Accepted else Rejected(EnvNameError(text))
  }

  /** A name is accepted exactly when it is non-empty and made of letters,
      digits, `-` and `_`; a missing value slips through. */
  lemma EnvNameAccepted(name: string)
    ensures ValidateEnvName(Some(name)) == Accepted <==>
      |name| > 0 && forall i :: 0 <= i < |name| ==> IsEnvNameChar(name[i])
    ensures ValidateEnvName(None) == Accepted
  {
    var u := "undefined";
    assert forall i :: 0 <= i < |u| ==> IsEnvNameChar(u[i]);
  }

  // ---- documentation ----

  /** `getIntroForDocumentation`, with the greeting (emoji, space, chosen
      phrase) and the CLI version given. */
  function Intro(greeting: string, version: string): string {
    greeting + "\n" + "\t\t\t\t\t \n" + "WPDucker version " + version + "\n\n" + "Documentation:\n"
  }

  /** `getDocumentationMessage`: the intro, a newline, and the docs or
      `<empty>` when there are none. */
  function DocumentationMessage(intro: string, docs: Option<string>): string {
    intro + "\n" + (if docs.Some? && docs.value != "" then docs.value else "<empty>")
  }

  /** The message reads back as its intro followed by the docs. */
  lemma DocumentationMessageParts(intro: string, docs: Option<string>)
    ensures var m := DocumentationMessage(intro, docs);
      && StartsWith(m, intro + "\n")
      && (docs.Some? && docs.value != "" ==> m[|intro| + 1..] == docs.value)
      && (docs.None? || docs.value == "" ==> m[|intro| + 1..] == "<empty>")
  {
  }

  // ---- asking for an argument ----

  /** `validator ? await validator(value) : undefined` */
  function Validate(validator: Option<Option<string> -> Validation>, value: Option<string>): Option<Validation> {
    if validator.Some? then Some(validator.value(value)) else None
  }

  predicate IsRejection(v: Option<Validation>) {
    v.Some? && v.value.Rejected?
  }

  /** The `k`-th prompt's answer: `prompt(...) || defaultValue`. */
  function Answer(answers: nat -> Option<string>, defaultValue: string, k: nat): string {
    if answers(k).Some? && answers(k).value != "" then answers(k).value else defaultValue
  }

  /** An answer the `while` condition lets out: non-empty and not rejected. */
  predicate Acceptable(answers: nat -> Option<string>, defaultValue: string,
                       validator: Option<Option<string> -> Validation>, k: nat) {
    var a := Answer(answers, defaultValue, k);
    a != "" && !IsRejection(Validate(validator, Some(a)))
  }

  /** The prompt whose answer `askForArg` returns: the first one when the
      argument is optional and that answer is not rejected, else the first
      acceptable one. */
  predicate ChosenPrompt(answers: nat -> Option<string>, required: bool, defaultValue: string,
                         validator: Option<Option<string> -> Validation>, k: nat) {
    if !required && !IsRejection(Validate(validator, Some(Answer(answers, defaultValue, 0)))) then k == 0
    else Acceptable(answers, defaultValue, validator, k)
         && forall j :: 0 <= j < k ==> !Acceptable(answers, defaultValue, validator, j)
  }

  /** Only one prompt can be the chosen one, so `askForArg` is determined by
      the answers. */
  lemma ChosenPromptUnique(answers: nat -> Option<string>, required: bool, defaultValue: string,
                           validator: Option<Option<string> -> Validation>, k1: nat, k2: nat)
    requires ChosenPrompt(answers, required, defaultValue, validator, k1)
    requires ChosenPrompt(answers, required, defaultValue, validator, k2)
    ensures k1 == k2
  {
    if !(!required && !IsRejection(Validate(validator, Some(Answer(answers, defaultValue, 0))))) {
      assert k1 < k2 ==> !Acceptable(answers, defaultValue, validator, k1);
      assert k2 < k1 ==> !Acceptable(answers, defaultValue, validator, k2);
    }
  }

  /** A required argument never ends up empty or rejected. */
  lemma RequiredAnswerAccepted(answers: nat -> Option<string>, defaultValue: string,
                               validator: Option<Option<string> -> Validation>, k: nat)
    requires ChosenPrompt(answers, true, defaultValue, validator, k)
    ensures Answer(answers, defaultValue, k) != ""
    ensures !IsRejection(Validate(validator, Some(Answer(answers, defaultValue, k))))
  {
  }

  /** Whether `askForArg` goes on to its `while` loop: the argument is
      required, or the first answer is rejected. */
  predicate Reprompts(answers: nat -> Option<string>, required: bool, defaultValue: string,
                      validator: Option<Option<string> -> Validation>) {
    required || IsRejection(Validate(validator, Some(Answer(answers, defaultValue, 0))))
  }

  /** An optional argument without a validator takes the first answer as it
      is, even an empty one with an empty default: no loop, no demand on the
      later answers. */
  lemma OptionalTakesFirstAnswer(answers: nat -> Option<string>, defaultValue: string)
    ensures !Reprompts(answers, false, defaultValue, None)
    ensures ChosenPrompt(answers, false, defaultValue, None, 0)
    ensures forall k: nat :: ChosenPrompt(answers, false, defaultValue, None, k) ==> k == 0
  {
  }

  /** `askForArg`. Once the loop is reached the prompting goes on until an
      acceptable answer comes, so on that path one must come at some point. */
  method AskForArg(required: bool, defaultValue: string, validator: Option<Option<string> -> Validation>,
                   answers: nat -> Option<string>) returns (answer: string, k: nat)
    requires Reprompts(answers, required, defaultValue, validator) ==>
      exists w: nat :: Acceptable(answers, defaultValue, validator, w)
    ensures ChosenPrompt(answers, required, defaultValue, validator, k)
    ensures answer == Answer(answers, defaultValue, k)
  {
    k := 0;
    answer := Answer(answers, defaultValue, 0);
    var validation := Validate(validator, Some(answer));
    if !required && !IsRejection(validation) {
      return;
    }
    assert Reprompts(answers, required, defaultValue, validator);
    ghost var w: nat :| Acceptable(answers, defaultValue, validator, w);
    while answer == "" || IsRejection(validation)
      invariant k <= w
      invariant answer == Answer(answers, defaultValue, k)
      invariant validation == Validate(validator, Some(answer))
      invariant forall j :: 0 <= j < k ==> !Acceptable(answers, defaultValue, validator, j)
      decreases w - k
    {
      k := k + 1;
      var next := answers(k);
      answer := if next.Some? && next.value != "" then next.value else defaultValue;
      validation := Validate(validator, Some(answer));
    }
  }

  /** What `getOrAskForArg` is told about the argument. */
  datatype ArgRequest = ArgRequest(name: string, askMessage: string, required: bool,
                                   throwIfInvalid: bool, defaultValue: string,
                                   validator: Option<Option<string> -> Validation>)

  function InvalidArgumentError(name: string): string {
    "Invalid value of argument \"" + name + "\" !"
  }

  /** The value `getKV([name])?.[0]?.[1]` finds. */
  function FirstValue(kv: seq<(string, string)>, name: string): Option<string> {
    var sel := Selected(kv, [name]);
    if |sel| > 0 then Some(sel[0].1) else None
  }

  /** Whether `getOrAskForArg` comes to `askForArg`: the given value is
      missing or rejected, and no error is thrown for it. */
  predicate AsksFor(req: ArgRequest, value: Option<string>) {
    !(value.Some? && !IsRejection(Validate(req.validator, value)))
    && !(req.throwIfInvalid && req.validator.Some?)
  }

  /** The text `askForArg` shows. */
  function PromptText(emoji: string, required: bool, defaultValue: string, message: string): string {
    emoji + " " + (if required then "(Required) " else "")
    + (if defaultValue != "" then "(Default: \"" + defaultValue + "\") " else "") + message
  }

  class Command {
    const args: ParsedArgs
    const documentation: Option<string>
    var stopExecution: bool

    constructor(args: ParsedArgs, documentation: Option<string>)
      ensures this.args == args && this.documentation == documentation && !stopExecution
    {
      this.args := args;
      this.documentation := documentation;
      stopExecution := false;
    }

    /** `preExec`: execution stops once `-h` or `--help` was given. */
    method PreExec()
      modifies this
      ensures stopExecution == (old(stopExecution) || "h" in args.boolean || "help" in args.boolean)
    {
      var search := ["h", "help"];
      var userNeedDocs := args.HasBoolean(search, Or);
      assert userNeedDocs <==> search[0] in args.boolean || search[1] in args.boolean;
      if userNeedDocs {
        stopExecution := true;
      }
    }

    /** `_exec` up to the abstract `exec`: whether `exec` is run. */
    method Execute() returns (runsExec: bool)
      modifies this
      ensures stopExecution == (old(stopExecution) || "h" in args.boolean || "help" in args.boolean)
      ensures runsExec == !stopExecution
    {
      PreExec();
      runsExec := !stopExecution;
    }

    /** `getOrAskForArg`: the given value when present and not rejected; an
        error with `throwIfInvalid` and a validator; otherwise the answer
        `askForArg` settles on. Looking the value up strips its quotes in the
        parsed arguments themselves. */
    method GetOrAskForArg(req: ArgRequest, answers: nat -> Option<string>) returns (r: Result<string>)
      requires AsksFor(req, FirstValue(StripSearched(args.keyValue, [req.name]), req.name))
               && Reprompts(answers, req.required, req.defaultValue, req.validator) ==>
        exists w: nat :: Acceptable(answers, req.defaultValue, req.validator, w)
      modifies args
      ensures args.keyValue == StripSearched(old(args.keyValue), [req.name])
      ensures args.boolean == old(args.boolean) && args.args == old(args.args)
      ensures var value := FirstValue(args.keyValue, req.name);
        var validation := Validate(req.validator, value);
        if value.Some? && !IsRejection(validation) then r == Ok(value.value)
        else if req.throwIfInvalid && req.validator.Some? then
          r == Err(if IsRejection(validation) then validation.value.message else InvalidArgumentError(req.name))
        else r.Ok? && exists k: nat :: ChosenPrompt(answers, req.required, req.defaultValue, req.validator, k)
                                      && r.value == Answer(answers, req.defaultValue, k)
    {
      var found := args.GetKV([req.name]);
      var value := if |found| > 0 then Some(found[0].1) else None;
      var validation := Validate(req.validator, value);
      if value.Some? && !IsRejection(validation) {
        return Ok(value.value);
      }
      if req.throwIfInvalid && req.validator.Some? {
        return Err(if IsRejection(validation) then validation.value.message else InvalidArgumentError(req.name));
      }
      var answer, k := AskForArg(req.required, req.defaultValue, req.validator, answers);
      return Ok(answer);
    }
  }
}
