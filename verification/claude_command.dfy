/**
 * The command line of the agent process: the run options, `buildCommand`, and a reading
 * of the argument list back into what it requests, which shows that every option group
 * lands in its fixed place and only when its option is set.
 */
module ClaudeCommand {
  import opened Wrappers
  import Prompts

  /** `RunOptions`. */
  datatype RunOptions = RunOptions(
    command: string,
    workflowType: string,
    taskDescription: string,
    workingDir: string,
    model: string,
    printMode: bool,
    autonomousMode: bool,
    commentTag: string,
    resumeSessionId: string)

  /** An executable and its arguments (`exec.Cmd`'s Path and Args after the name). */
  datatype Cmd = Cmd(program: string, args: seq<string>)

  const AgentProgram := "claude"
  const ModelFlag := "--model"
  const PrintFlag := "-p"
  const AutonomousFlag := "--dangerously-skip-permissions"
  const ResumeFlag := "--resume"
  /** The resume id that asks for the interactive picker instead of a specific session. */
  const ResumePicker := "*"

  predicate IsFlag(s: string)
  {
    s == ModelFlag || s == PrintFlag || s == AutonomousFlag || s == ResumeFlag
  }

  /** The positional prompt: the task, behind the command's prefix and a space when there is one. */
  function PromptText(o: RunOptions): (p: string)
    ensures Prompts.GetPromptPrefix(o.command, o.commentTag) == "" ==> p == o.taskDescription
    ensures Prompts.GetPromptPrefix(o.command, o.commentTag) != "" ==>
      p == Prompts.GetPromptPrefix(o.command, o.commentTag) + " " + o.taskDescription
  {
    var prefix := Prompts.GetPromptPrefix(o.command, o.commentTag);
    if prefix != "" then prefix + " " + o.taskDescription else o.taskDescription
  }

  /** `buildCommand`: the arguments are appended group by group, each only when its option is set. */
  function BuildCommand(o: RunOptions): (cmd: Cmd)
    ensures cmd.program == AgentProgram
  {
    Cmd(AgentProgram, Arguments(o, PromptText(o)))
  }

  /** The argument list of `buildCommand`, for the given prompt text: each step appends its group. */
  function Arguments(o: RunOptions, prompt: string): seq<string>
  {
    var args0: seq<string> := [];
    var args1 := args0 + ModelGroup(o);
    var args2 := args1 + FlagGroup(o.printMode, PrintFlag);
    var args3 := args2 + FlagGroup(o.autonomousMode, AutonomousFlag);
    var args4 := args3 + ResumeGroup(o);
    args4 + PromptArgument(o.taskDescription, prompt)
  }

  /** What an argument list asks the agent for. */
  datatype Resume = NoResume | PickSession | ResumeSession(id: string)
  datatype Request = Request(model: string, printOnly: bool, autonomous: bool, resume: Resume, prompt: Option<string>)

  /** The request `buildCommand` is meant to encode for the given options. */
  function Intended(o: RunOptions): Request
  {
    Request(
      o.model, o.printMode, o.autonomousMode,
      if o.resumeSessionId == "" then NoResume
      else if o.resumeSessionId == ResumePicker then PickSession
      else ResumeSession(o.resumeSessionId),
      if o.taskDescription != "" then Some(PromptText(o)) else None)
  }

  /** `--model` and its value, when the list starts with them. */
  function TakeModel(args: seq<string>): (string, seq<string>)
  {
    if |args| >= 2 && args[0] == ModelFlag then (args[1], args[2..]) else ("", args)
  }

  /** A lone flag, when the list starts with it. */
  function TakeFlag(args: seq<string>, flag: string): (bool, seq<string>)
  {
    if |args| >= 1 && args[0] == flag then (true, args[1..]) else (false, args)
  }

  /** `--resume`, with the next argument as its id when there is one. */
  function TakeResume(args: seq<string>): (Resume, seq<string>)
  {
    if |args| == 0 || args[0] != ResumeFlag then (NoResume, args)
    else if |args| >= 2 then (ResumeSession(args[1]), args[2..])
    else (PickSession, args[1..])
  }

  /**
   * Reads an argument list in the fixed order model, print, autonomous, resume, prompt;
   * at most one argument may remain for the prompt.
   */
  function ParseArgs(args: seq<string>): Option<Request>
  {
    var (model, a1) := TakeModel(args);
    var (printOnly, a2) := TakeFlag(a1, PrintFlag);
    var (autonomous, a3) := TakeFlag(a2, AutonomousFlag);
    var (resume, a4) := TakeResume(a3);
    if |a4| == 0 then Some(Request(model, printOnly, autonomous, resume, None))
    else if |a4| == 1 then Some(Request(model, printOnly, autonomous, resume, Some(a4[0])))
    else None
  }

  /** The argument groups of `buildCommand`, one per option. */
  function ModelGroup(o: RunOptions): seq<string>
  {
    if o.model != "" then [ModelFlag, o.model] else []
  }

  function FlagGroup(present: bool, flag: string): seq<string>
  {
    if present then [flag] else []
  }

  function ResumeGroup(o: RunOptions): seq<string>
  {
    if o.resumeSessionId == "" then []
    else if o.resumeSessionId == ResumePicker then [ResumeFlag]
    else [ResumeFlag, o.resumeSessionId]
  }

  /** The prompt, only when there is a task. */
  function PromptArgument(task: string, prompt: string): seq<string>
  {
    if task != "" then [prompt] else []
  }

  function PromptGroup(o: RunOptions): seq<string>
  {
    PromptArgument(o.taskDescription, PromptText(o))
  }

  /** A step of `ParseBuildCommand`: `buildCommand`'s list regrouped, one group per option. */
  lemma BuildCommandGroups(o: RunOptions)
    ensures BuildCommand(o).args ==
      ModelGroup(o) + (FlagGroup(o.printMode, PrintFlag) + (FlagGroup(o.autonomousMode, AutonomousFlag)
      + (ResumeGroup(o) + PromptGroup(o))))
  {
    var m, p, a := ModelGroup(o), FlagGroup(o.printMode, PrintFlag), FlagGroup(o.autonomousMode, AutonomousFlag);
    var r, t := ResumeGroup(o), PromptGroup(o);
    assert [] + m == m;
    assert BuildCommand(o).args == (((m + p) + a) + r) + t;
  }

  /** `ParseArgs` is the composition of its four steps. */
  lemma ParseArgsSteps(args: seq<string>, a2: seq<string>, a3: seq<string>, a4: seq<string>, rest: seq<string>,
                       model: string, printOnly: bool, autonomous: bool, resume: Resume)
    requires TakeModel(args) == (model, a2)
    requires TakeFlag(a2, PrintFlag) == (printOnly, a3)
    requires TakeFlag(a3, AutonomousFlag) == (autonomous, a4)
    requires TakeResume(a4) == (resume, rest)
    requires |rest| <= 1
    ensures ParseArgs(args) == Some(Request(model, printOnly, autonomous, resume, if rest == [] then None else Some(rest[0])))
  {
  }

  /** A lone flag is read back exactly when it was put in front of the rest. */
  lemma TakeFlagGroup(flag: string, present: bool, rest: seq<string>)
    requires rest == [] || rest[0] != flag
    ensures TakeFlag(FlagGroup(present, flag) + rest, flag) == (present, rest)
  {
    if present {
      assert ([flag] + rest)[1..] == rest;
    } else {
      assert [] + rest == rest;
    }
  }

  /** The resume group is read back exactly when what follows it cannot be taken for its id. */
  lemma TakeResumeGroup(o: RunOptions, rest: seq<string>)
    requires rest == [] || rest[0] != ResumeFlag
    requires o.resumeSessionId == ResumePicker ==> rest == []
    ensures TakeResume(ResumeGroup(o) + rest) == (Intended(o).resume, rest)
  {
    if o.resumeSessionId == "" {
      assert ResumeGroup(o) + rest == rest;
    } else if o.resumeSessionId == ResumePicker {
      assert ResumeGroup(o) + rest == [ResumeFlag];
    } else {
      assert (ResumeGroup(o) + rest)[2..] == rest;
    }
  }

  /** The model group is read back exactly when it was put in front of the rest. */
  lemma TakeModelGroup(o: RunOptions, rest: seq<string>)
    requires rest == [] || rest[0] != ModelFlag
    ensures TakeModel(ModelGroup(o) + rest) == (o.model, rest)
  {
    if o.model != "" {
      assert (ModelGroup(o) + rest)[2..] == rest;
    } else {
      assert ModelGroup(o) + rest == rest;
    }
  }

  /**
   * The argument list carries exactly the intended request: each flag group is present
   * iff its option is set, in the fixed order, with at most one positional prompt. It
   * needs the prompt not to be spelled like a flag, and not to follow a bare `--resume`.
   */
  lemma ParseBuildCommand(o: RunOptions)
    requires !IsFlag(PromptText(o)) || o.taskDescription == ""
    requires !(o.resumeSessionId == ResumePicker && o.taskDescription != "")
    ensures ParseArgs(BuildCommand(o).args) == Some(Intended(o))
  {
    var g5 := PromptGroup(o);
    var a4 := ResumeGroup(o) + g5;
    TakeResumeGroup(o, g5);
    assert a4 == [] || a4[0] == ResumeFlag || (a4[0] == PromptText(o) && !IsFlag(a4[0]));
    var a3 := FlagGroup(o.autonomousMode, AutonomousFlag) + a4;
    TakeFlagGroup(AutonomousFlag, o.autonomousMode, a4);
    var a2 := FlagGroup(o.printMode, PrintFlag) + a3;
    assert a3 == [] || a3[0] != PrintFlag;
    TakeFlagGroup(PrintFlag, o.printMode, a3);
    assert a2 == [] || a2[0] != ModelFlag;
    var a1 := ModelGroup(o) + a2;
    TakeModelGroup(o, a2);
    BuildCommandGroups(o);
    ParseArgsSteps(a1, a2, a3, a4, g5, o.model, o.printMode, o.autonomousMode, Intended(o).resume);
  }

  /**
   * A bare `--resume` followed by the prompt gives the same arguments as resuming a
   * session whose id is the prompt text: the argument list cannot tell them apart.
   */
  lemma PickerWithTaskLooksLikeResumeId(o: RunOptions)
    requires o.resumeSessionId == ResumePicker && o.taskDescription != ""
    requires PromptText(o) != ResumePicker
    ensures BuildCommand(o).args
         == BuildCommand(o.(resumeSessionId := PromptText(o), taskDescription := "")).args
  {
  }

  /** Without a task there is no positional argument: the last argument, if any, is a flag or a flag's value. */
  lemma NoTaskNoPrompt(o: RunOptions)
    requires o.taskDescription == ""
    ensures |BuildCommand(o).args| ==
      (if o.model != "" then 2 else 0) + (if o.printMode then 1 else 0) + (if o.autonomousMode then 1 else 0)
      + (if o.resumeSessionId == "" then 0 else if o.resumeSessionId == ResumePicker then 1 else 2)
  {
  }
}
