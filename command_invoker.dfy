/** `classCommandInvoker`: runs a command either here (`dispatchCommand`) or by
    spawning the first existing outsource target with the primitive
    arguments (`outsourceCommand`). Whether a path exists, a file's mode and
    `commandExist` are oracles; the spawned process is left out. */
module CommandInvoker {
  import opened Wrappers
  import opened CommandBase
  import opened DependencyChecker
  import opened ExecutePermissions

  /** The argument of `setOutsourceTarget`: an array or a single string. */
  datatype Target = Paths(paths: seq<string>) | Single(path: string)

  /** `isArray(target) ? target : (target ? [target] : undefined)` */
  function OutsourceTargetOf(target: Target): Option<seq<string>> {
    match target
    case Paths(ps) => Some(ps)
    case Single(p) => if p != "" then Some([p]) else None
  }

  lemma OutsourceTargetCases(target: Target)
    ensures target.Paths? ==> OutsourceTargetOf(target) == Some(target.paths)
    ensures target.Single? && target.path != "" ==> OutsourceTargetOf(target) == Some([target.path])
    ensures OutsourceTargetOf(target).None? <==> target == Single("")
  {
  }

  datatype Callback = Outsource | Dispatch

  /** `getCommandExecutionCallback`: outsource exactly when there is a
      non-empty target list. */
  function CallbackFor(outsourceTarget: Option<seq<string>>): (r: Callback)
    ensures r == Outsource <==> outsourceTarget.Some? && |outsourceTarget.value| > 0
  {
    if outsourceTarget.Some? && |outsourceTarget.value| > 0 then Outsource else Dispatch
  }

  /** The index of the first path that exists. */
  function FirstExisting(paths: seq<string>, pathExists: string -> bool): (r: Option<nat>)
    ensures r.Some? ==> r.value < |paths| && pathExists(paths[r.value])
                        && forall j :: 0 <= j < r.value ==> !pathExists(paths[j])
    ensures r.None? ==> forall j :: 0 <= j < |paths| ==> !pathExists(paths[j])
  {
    if |paths| == 0 then None
    else if pathExists(paths[0]) then Some(0)
    else
      var r := FirstExisting(paths[1..], pathExists);
      assert forall j :: 1 <= j < |paths| ==> paths[j] == paths[1..][j - 1];
      if r.Some? then Some(r.value + 1) else None
  }

  /** `Invalid outsource target! "${JSON.stringify(undefined)}"` */
  const InvalidTargetError := "Invalid outsource target! \"undefined\""

  function InvalidPathError(path: string): string {
    "Invalid outsource path: \"" + path + "\""
  }

  /** The process `outsourceCommand` spawns, and the mode `chmod` gives the
      file first, if any. */
  datatype Spawn = Spawn(path: string, args: seq<string>, chmod: Option<bv32>)

  datatype Outcome = Spawned(spawn: Spawn) | Dispatched(runsExec: bool)

  class Invoker {
    var outsourceTarget: Option<seq<string>>
    var checkDependencies: bool

    constructor()
      ensures outsourceTarget.None? && checkDependencies
    {
      outsourceTarget := None;
      checkDependencies := true;
    }

    method SetOutsourceTarget(target: Target)
      modifies this
      ensures outsourceTarget == OutsourceTargetOf(target) && checkDependencies == old(checkDependencies)
    {
      outsourceTarget := match target
        case Paths(ps) => Some(ps)
        case Single(p) => if p != "" then Some([p]) else None;
    }

    method SetCheckDependencies(b: bool)
      modifies this
      ensures checkDependencies == b && outsourceTarget == old(outsourceTarget)
    {
      checkDependencies := b;
    }

    /** `outsourceCommand`: the first existing target, made executable and
        spawned with the command's primitive arguments. */
    method OutsourceCommand(command: Command, pathExists: string -> bool, modeOf: string -> Option<bv32>)
      returns (r: Result<Spawn>)
      ensures outsourceTarget.None? ==> r == Err(InvalidTargetError)
      ensures outsourceTarget.Some? ==>
        var first := FirstExisting(outsourceTarget.value, pathExists);
        if first.None? then r == Err(InvalidPathError("undefined"))
        else
          var path := outsourceTarget.value[first.value];
          if path == "" then r == Err(InvalidPathError(""))
          else r == Ok(Spawn(path, command.args.primitive, EnsureExecutePermissions(modeOf(path))))
    {
      if outsourceTarget.None? {
        return Err(InvalidTargetError);
      }
      var targets := outsourceTarget.value;
      var i := 0;
      while i < |targets| && !pathExists(targets[i])
        invariant 0 <= i <= |targets|
        invariant forall j :: 0 <= j < i ==> !pathExists(targets[j])
      {
        i := i + 1;
      }
      if i == |targets| {
        return Err(InvalidPathError("undefined"));
      }
      FirstIsFirst(targets, pathExists, i);
      var path := targets[i];
      if path == "" {
        return Err(InvalidPathError(""));
      }
      r := Ok(Spawn(path, command.args.primitive, EnsureExecutePermissions(modeOf(path))));
    }

    /** `dispatchCommand`: the dependency check when it is on, whose error
        stops the run, then the command's `_exec`. */
    method DispatchCommand(command: Command, exist: (string, seq<string>) -> bool) returns (r: Result<bool>)
      modifies command
      ensures var e := FeedOf(TotalCommands(None), exist);
        if checkDependencies && !General(e) then
          r == Err(MissingMessage(Missing(e))) && command.stopExecution == old(command.stopExecution)
        else
          && command.stopExecution == (old(command.stopExecution) || "h" in command.args.boolean || "help" in command.args.boolean)
          && r == Ok(!command.stopExecution)
    {
      if checkDependencies {
        var checked := Check(None, exist);
        if checked.Err? {
          return Err(checked.error);
        }
      }
      var runsExec := command.Execute();
      r := Ok(runsExec);
    }

    /** `exec`: the callback `getCommandExecutionCallback` picks, with its
        error passed on unchanged. */
    method Exec(command: Command, pathExists: string -> bool, modeOf: string -> Option<bv32>,
                exist: (string, seq<string>) -> bool) returns (r: Result<Outcome>)
      modifies command
      ensures CallbackFor(outsourceTarget) == Outsource ==>
        && command.stopExecution == old(command.stopExecution)
        && var first := FirstExisting(outsourceTarget.value, pathExists);
           if first.None? then r == Err(InvalidPathError("undefined"))
           else
             var path := outsourceTarget.value[first.value];
             if path == "" then r == Err(InvalidPathError(""))
             else r == Ok(Spawned(Spawn(path, command.args.primitive, EnsureExecutePermissions(modeOf(path)))))
      ensures CallbackFor(outsourceTarget) == Dispatch ==>
        var e := FeedOf(TotalCommands(None), exist);
        if checkDependencies && !General(e) then
          r == Err(MissingMessage(Missing(e))) && command.stopExecution == old(command.stopExecution)
        else
          && command.stopExecution == (old(command.stopExecution) || "h" in command.args.boolean || "help" in command.args.boolean)
          && r == Ok(Dispatched(!command.stopExecution))
    {
      var callback := CallbackFor(outsourceTarget);
      if callback == Outsource {
        var s := OutsourceCommand(command, pathExists, modeOf);
        r := if s.Ok? then Ok(Spawned(s.value)) else Err(s.error);
      } else {
        var d := DispatchCommand(command, exist);
        r := if d.Ok? then Ok(Dispatched(d.value)) else Err(d.error);
      }
    }
  }

  /** An existing path with none before it is the one `FirstExisting` names. */
  lemma FirstIsFirst(paths: seq<string>, pathExists: string -> bool, i: nat)
    requires i < |paths| && pathExists(paths[i])
    requires forall j :: 0 <= j < i ==> !pathExists(paths[j])
    ensures FirstExisting(paths, pathExists) == Some(i)
  {
    if i > 0 {
      FirstIsFirst(paths[1..], pathExists, i - 1);
    }
  }
}
