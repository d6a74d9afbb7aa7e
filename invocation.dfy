/**
 * How each backend is started: the argument vectors of `run_codex`
 * (src/main.rs:757-818), `run_generic` with `has_arg` (src/main.rs:820-846)
 * and `run_sdk` (src/main.rs:848-876), the streams handed to the process
 * runner, and the choice of backend in `main`. A temporary file's path is a
 * parameter; spawning, waiting and killing are not modelled.
 */
module Invocation {
  import opened Common
  import opened Text

  /**
   * A process to start: the program, its arguments, the text written to its
   * standard input, and whether its standard output and error are captured
   * (a stream not captured is discarded).
   */
  datatype Command = Command(
    program: string, args: seq<string>, input: Option<string>,
    captureStdout: bool, captureStderr: bool)

  /** `has_arg`: some argument equals `needle`. */
  function HasArg(args: seq<string>, needle: string): (r: bool)
    ensures r <==> needle in args
    decreases |args|
  {
    if args == [] then false
    else if args[0] == needle then true
    else
      assert forall a :: a in args <==> a == args[0] || a in args[1..];
      HasArg(args[1..], needle)
  }

  /** How many arguments equal `needle`. */
  function Count(args: seq<string>, needle: string): (n: nat)
    ensures n == 0 <==> needle !in args
    ensures n <= |args|
    decreases |args|
  {
    if args == [] then 0
    else
      assert forall a :: a in args <==> a == args[0] || a in args[1..];
      (if args[0] == needle then 1 else 0) + Count(args[1..], needle)
  }

  lemma {:induction false} CountAppend(a: seq<string>, b: seq<string>, needle: string)
    ensures Count(a + b, needle) == Count(a, needle) + Count(b, needle)
    decreases |a|
  {
    if a == [] {
      assert a + b == b;
    } else {
      assert (a + b)[1..] == a[1..] + b;
      CountAppend(a[1..], b, needle);
    }
  }

  /** `--model MODEL`, left out when the model is empty (both `run_codex` and `run_generic`). */
  function ModelArgs(model: string): (r: seq<string>)
    ensures model == [] <==> r == []
    ensures r != [] ==> r == ["--model", model]
  {
    if model == [] then [] else ["--model", model]
  }

  // ---------------------------------------------------------------- codex

  /** `-c model_reasoning_effort=EFFORT`, left out when the effort is empty. */
  function EffortArgs(effort: string): (r: seq<string>)
    ensures effort == [] <==> r == []
    ensures r != [] ==> r == ["-c", "model_reasoning_effort=" + effort]
  {
    if effort == [] then [] else ["-c", "model_reasoning_effort=" + effort]
  }

  /** `-c specialization=SPEC`, left out when there is none or it is blank. */
  function CodexSpecializationArgs(specialization: Option<string>): (r: seq<string>)
    ensures r != [] <==> specialization.Some? && Trim(specialization.value) != []
    ensures r != [] ==> r == ["-c", "specialization=" + specialization.value]
  {
    if specialization.Some? && Trim(specialization.value) != [] then ["-c", "specialization=" + specialization.value]
    else []
  }

  const BypassFlag: string := "--dangerously-bypass-approvals-and-sandbox"

  /** The approval mode: bypassing everything wins over `--full-auto`. */
  function ModeArgs(yolo: bool, fullAuto: bool): (r: seq<string>)
    ensures yolo ==> r == [BypassFlag]
    ensures !yolo && fullAuto ==> r == ["--full-auto"]
    ensures !yolo && !fullAuto ==> r == []
  {
    if yolo then [BypassFlag] else if fullAuto then ["--full-auto"] else []
  }

  /** The resume subcommand: a given session id wins over `--last`. */
  function ResumeArgs(resumeLast: bool, resumeId: Option<string>): (r: seq<string>)
    ensures resumeId.Some? ==> r == ["resume", resumeId.value]
    ensures resumeId.None? && resumeLast ==> r == ["resume", "--last"]
    ensures resumeId.None? && !resumeLast ==> r == []
  {
    if resumeLast || resumeId.Some? then
      ["resume"] + (if resumeId.Some? then [resumeId.value] else ["--last"])
    else []
  }

  /** The options `codex` takes before its `exec` subcommand. */
  function CodexGlobalArgs(model: string, effort: string, specialization: Option<string>, yolo: bool, fullAuto: bool): (r: seq<string>)
    ensures |r| == |ModelArgs(model)| + |EffortArgs(effort)| + |CodexSpecializationArgs(specialization)| + |ModeArgs(yolo, fullAuto)|
    ensures r[..|ModelArgs(model)|] == ModelArgs(model)
    ensures r[|r| - |ModeArgs(yolo, fullAuto)|..] == ModeArgs(yolo, fullAuto)
    ensures r == ModelArgs(model) + EffortArgs(effort) + CodexSpecializationArgs(specialization) + ModeArgs(yolo, fullAuto)
  {
    var front := ModelArgs(model) + EffortArgs(effort) + CodexSpecializationArgs(specialization);
    var r := front + ModeArgs(yolo, fullAuto);
    assert r[..|ModelArgs(model)|] == front[..|ModelArgs(model)|];
    assert r[|r| - |ModeArgs(yolo, fullAuto)|..] == ModeArgs(yolo, fullAuto);
    r
  }

  /** The arguments of `exec`: JSON events, the last-message file, resume, the extra arguments, and `-` for standard input. */
  function CodexExecArgs(codexJson: bool, outputPath: string, resumeLast: bool, resumeId: Option<string>, runnerArgs: seq<string>): (r: seq<string>)
    ensures var h := if codexJson then 1 else 0;
      && |r| == h + 2 + |ResumeArgs(resumeLast, resumeId)| + |runnerArgs| + 1
      && (codexJson ==> r[0] == "--json")
      && r[h..h + 2] == ["--output-last-message", outputPath]
      && r[h + 2..|r| - |runnerArgs| - 1] == ResumeArgs(resumeLast, resumeId)
      && r[|r| - |runnerArgs| - 1..] == runnerArgs + ["-"]
  {
    var head := (if codexJson then ["--json"] else []) + ["--output-last-message", outputPath];
    var resume := ResumeArgs(resumeLast, resumeId);
    var tail := runnerArgs + ["-"];
    var r := head + resume + tail;
    var h := if codexJson then 1 else 0;
    assert r[h..h + 2] == head[h..];
    assert r[h + 2..|r| - |tail|] == resume;
    assert r[|r| - |tail|..] == tail;
    r
  }

  /**
   * `run_codex`'s command: the global options, `exec`, then its arguments. The
   * prompt goes on standard input, standard output is captured only without
   * `--json`, standard error always.
   */
  function CodexCommand(prompt: string, model: string, effort: string, runnerArgs: seq<string>,
                        fullAuto: bool, yolo: bool, resumeLast: bool, resumeId: Option<string>,
                        specialization: Option<string>, codexJson: bool, outputPath: string): (c: Command)
    ensures c.program == "codex" && c.input == Some(prompt)
    ensures c.captureStdout == !codexJson && c.captureStderr
    ensures var g := CodexGlobalArgs(model, effort, specialization, yolo, fullAuto);
      |g| < |c.args| && c.args[..|g|] == g && c.args[|g|] == "exec"
      && c.args[|g| + 1..] == CodexExecArgs(codexJson, outputPath, resumeLast, resumeId, runnerArgs)
  {
    var g := CodexGlobalArgs(model, effort, specialization, yolo, fullAuto);
    var e := CodexExecArgs(codexJson, outputPath, resumeLast, resumeId, runnerArgs);
    var args := g + ["exec"] + e;
    assert args[..|g|] == g;
    assert args[|g| + 1..] == e;
    Command("codex", args, Some(prompt), !codexJson, true)
  }

  /**
   * The tail of `exec`'s arguments: the extra arguments and `-` always come
   * last, and without resume or extra arguments the last-message option
   * comes right before `-`.
   */
  lemma CodexExecTail(codexJson: bool, outputPath: string, resumeLast: bool, resumeId: Option<string>,
                      runnerArgs: seq<string>)
    ensures var e := CodexExecArgs(codexJson, outputPath, resumeLast, resumeId, runnerArgs);
      && |runnerArgs| + 1 <= |e| && e[|e| - |runnerArgs| - 1..] == runnerArgs + ["-"]
      && (!resumeLast && resumeId.None? && runnerArgs == [] ==>
            |e| >= 3 && e[|e| - 3..] == ["--output-last-message", outputPath, "-"])
  {
    var e := CodexExecArgs(codexJson, outputPath, resumeLast, resumeId, runnerArgs);
    var head := (if codexJson then ["--json"] else []) + ["--output-last-message", outputPath];
    var tail := runnerArgs + ["-"];
    assert e == (head + ResumeArgs(resumeLast, resumeId)) + tail;
    assert e[|e| - |tail|..] == tail;
    if !resumeLast && resumeId.None? && runnerArgs == [] {
      assert e == head + ["-"];
    }
  }

  /** The last `n` elements of `x + e` are the last `n` of `e`. */
  lemma SuffixOfConcat(x: seq<string>, e: seq<string>, n: nat)
    requires n <= |e|
    ensures (x + e)[|x + e| - n..] == e[|e| - n..]
  {
  }

  /**
   * With `--yolo`, `codex` gets the bypass flag as its last option, and
   * `--full-auto` only in the one case where it is the model's own name.
   */
  lemma YoloExcludesFullAuto(model: string, effort: string, specialization: Option<string>, fullAuto: bool)
    ensures var g := CodexGlobalArgs(model, effort, specialization, true, fullAuto);
      g[|g| - 1] == BypassFlag && ("--full-auto" in g <==> model == "--full-auto")
  {
    var f := "--full-auto";
    var m, e, c := ModelArgs(model), EffortArgs(effort), CodexSpecializationArgs(specialization);
    var g := CodexGlobalArgs(model, effort, specialization, true, fullAuto);
    assert g == m + e + c + [BypassFlag];
    assert f !in e by {
      if e != [] {
        assert e[1][0] == 'm';
      }
    }
    assert f !in c by {
      if c != [] {
        assert c[1][0] == 's';
      }
    }
    assert f != BypassFlag by {
      assert |f| != |BypassFlag|;
    }
    assert f in m <==> model == f by {
      if m != [] {
        assert |f| != |m[0]|;
      }
    }
  }

  /**
   * What counts as `run_codex`'s standard output: the last-message file's
   * text when it was read and is not blank, else what was captured.
   */
  function CodexStdout(captured: string, lastMessage: Option<string>): (r: string)
    ensures lastMessage.Some? && Trim(lastMessage.value) != [] ==> r == lastMessage.value
    ensures lastMessage.None? || Trim(lastMessage.value) == [] ==> r == captured
  {
    if lastMessage.Some? && Trim(lastMessage.value) != [] then lastMessage.value else captured
  }

  // -------------------------------------------------------------- generic

  const SkipPermissionsFlag: string := "--dangerously-skip-permissions"

  /** The extra arguments of `run_generic`, with the skip-permissions flag added for `claude` under `--yolo` when missing. */
  function GenericExtraArgs(runner: string, runnerArgs: seq<string>, yolo: bool): (r: seq<string>)
    ensures |runnerArgs| <= |r| <= |runnerArgs| + 1 && r[..|runnerArgs|] == runnerArgs
    ensures SkipPermissionsFlag in r <==> SkipPermissionsFlag in runnerArgs || (yolo && runner == "claude")
    ensures Count(r, SkipPermissionsFlag)
      == if SkipPermissionsFlag in runnerArgs then Count(runnerArgs, SkipPermissionsFlag)
         else if yolo && runner == "claude" then 1 else 0
  {
    var r := if yolo && runner == "claude" && !HasArg(runnerArgs, SkipPermissionsFlag)
      then runnerArgs + [SkipPermissionsFlag] else runnerArgs;
    assert r[..|runnerArgs|] == runnerArgs;
    CountAppend(runnerArgs, [SkipPermissionsFlag], SkipPermissionsFlag);
    assert Count([SkipPermissionsFlag], SkipPermissionsFlag) == 1 by {
      assert [SkipPermissionsFlag][1..] == [];
    }
    r
  }

  /** Adding the flag is idempotent: a second pass adds nothing. */
  lemma GenericExtraArgsIdempotent(runner: string, runnerArgs: seq<string>, yolo: bool)
    ensures GenericExtraArgs(runner, GenericExtraArgs(runner, runnerArgs, yolo), yolo)
      == GenericExtraArgs(runner, runnerArgs, yolo)
  {
  }

  /**
   * `run_generic`'s command: the prompt is an argument after the prompt flag,
   * nothing goes on standard input, both streams are captured.
   */
  function GenericCommand(runner: string, model: string, promptFlag: string, prompt: string,
                          runnerArgs: seq<string>, yolo: bool): (c: Command)
    ensures c.program == runner && c.input == None && c.captureStdout && c.captureStderr
    ensures |c.args| >= 2 && c.args[|c.args| - 2..] == [promptFlag, prompt]
    ensures |ModelArgs(model)| <= |c.args| && c.args[..|ModelArgs(model)|] == ModelArgs(model)
    ensures c.args == ModelArgs(model) + GenericExtraArgs(runner, runnerArgs, yolo) + [promptFlag, prompt]
  {
    var m := ModelArgs(model);
    var args := m + GenericExtraArgs(runner, runnerArgs, yolo) + [promptFlag, prompt];
    assert args[..|m|] == m;
    Command(runner, args, None, true, true)
  }

  // ------------------------------------------------------------------ sdk

  /** `--specialization SPEC`, left out when there is none or it is blank. */
  function SdkSpecializationArgs(specialization: Option<string>): (r: seq<string>)
    ensures specialization.Some? && Trim(specialization.value) != [] ==> r == ["--specialization", specialization.value]
    ensures specialization.None? || Trim(specialization.value) == [] ==> r == []
  {
    if specialization.Some? && Trim(specialization.value) != [] then ["--specialization", specialization.value] else []
  }

  /** The script the SDK backend runs under `uv`. */
  const AgentScript: string := "scripts/ralph_agent.py"

  /** The fixed part of `run_sdk`'s arguments. */
  function SdkFixedArgs(promptPath: string, model: string, effort: string, maxTurns: u32): (r: seq<string>)
    ensures |r| == 11
  {
    ["run", "python", AgentScript, "--prompt-file", promptPath, "--model", model,
     "--max-turns", NatToString(maxTurns), "--reasoning-effort", effort]
  }

  /**
   * `run_sdk`'s command: `uv run python` on the agent script, the prompt in a
   * file, the fixed options in a fixed order, and the specialization last
   * when it is not blank.
   */
  function SdkCommand(promptPath: string, model: string, effort: string, specialization: Option<string>,
                      maxTurns: u32): (c: Command)
    ensures c.program == "uv" && c.input == None && c.captureStdout && c.captureStderr
    ensures |c.args| >= 11 && c.args[..11] == SdkFixedArgs(promptPath, model, effort, maxTurns)
    ensures c.args[11..] == SdkSpecializationArgs(specialization)
  {
    var fixed := SdkFixedArgs(promptPath, model, effort, maxTurns);
    var args := fixed + SdkSpecializationArgs(specialization);
    assert args[..11] == fixed;
    assert args[11..] == SdkSpecializationArgs(specialization);
    Command("uv", args, None, true, true)
  }

  /**
   * The SDK command's layout option by option; the turn limit is written in
   * decimal and reads back as the same number.
   */
  lemma SdkCommandLayout(promptPath: string, model: string, effort: string, specialization: Option<string>,
                         maxTurns: u32)
    ensures var a := SdkCommand(promptPath, model, effort, specialization, maxTurns).args;
      && |a| == (if specialization.Some? && Trim(specialization.value) != [] then 13 else 11)
      && a[..3] == ["run", "python", AgentScript]
      && a[3] == "--prompt-file" && a[4] == promptPath
      && a[5] == "--model" && a[6] == model
      && a[7] == "--max-turns" && (forall k :: 0 <= k < |a[8]| ==> IsDigit(a[8][k])) && ParseDecimal(a[8]) == maxTurns
      && a[9] == "--reasoning-effort" && a[10] == effort
      && (|a| == 13 ==> a[11] == "--specialization" && a[12] == specialization.value)
  {
    var a := SdkCommand(promptPath, model, effort, specialization, maxTurns).args;
    var fixed := SdkFixedArgs(promptPath, model, effort, maxTurns);
    SdkFixedLayout(promptPath, model, effort, maxTurns);
    assert a[..3] == fixed[..3];
    assert forall k :: 0 <= k < 11 ==> a[k] == fixed[k];
  }

  /** The fixed arguments option by option, the turn limit in decimal digits that read back as the limit. */
  lemma SdkFixedLayout(promptPath: string, model: string, effort: string, maxTurns: u32)
    ensures var f := SdkFixedArgs(promptPath, model, effort, maxTurns);
      && f[..3] == ["run", "python", AgentScript]
      && f[3] == "--prompt-file" && f[4] == promptPath
      && f[5] == "--model" && f[6] == model
      && f[7] == "--max-turns" && (forall k :: 0 <= k < |f[8]| ==> IsDigit(f[8][k])) && ParseDecimal(f[8]) == maxTurns
      && f[9] == "--reasoning-effort" && f[10] == effort
  {
    NatToStringRoundTrip(maxTurns);
  }

  // ------------------------------------------------------------ selection

  /** The backends a run can use. */
  datatype Backend = Codex | Sdk | Generic

  /** The iteration loop's backend: `codex` by name, `sdk` by name, anything else as a generic runner. */
  function IterationBackend(runner: string): (b: Backend)
    ensures b == Codex <==> runner == "codex"
    ensures b == Sdk <==> runner == "sdk"
  {
    if runner == "codex" then Codex else if runner == "sdk" then Sdk else Generic
  }

  /** Goal inference runs on the SDK backend for `sdk` and on `codex` for every other runner. */
  function InferenceBackend(runner: string): (b: Backend)
    ensures b != Generic
    ensures b == Sdk <==> runner == "sdk"
  {
    if runner == "sdk" then Sdk else Codex
  }

  /** The executable `ensure_runner` insists on before the loop: `uv` for the SDK backend, else the runner itself. */
  function RequiredExecutable(runner: string): (e: string)
    ensures runner == "sdk" ==> e == "uv"
    ensures runner != "sdk" ==> e == runner
  {
    if runner == "sdk" then "uv" else runner
  }

  /** `--runner-timeout`: zero seconds means no timeout. */
  function RunnerTimeout(seconds: nat): (t: Option<nat>)
    ensures t.None? <==> seconds == 0
    ensures t.Some? ==> t.value == seconds
  {
    if seconds > 0 then Some(seconds) else None
  }

  /** The settings a run shares across iterations. */
  datatype Settings = Settings(
    runner: string, model: string, effort: string, runnerArgs: seq<string>,
    fullAuto: bool, yolo: bool, resumeLast: bool, resumeId: Option<string>,
    specialization: Option<string>, codexJson: bool, promptFlag: string, sdkMaxTurns: u32)

  /** The command one iteration starts; `tempPath` is the last-message file for `codex` or the prompt file for the SDK. */
  function IterationCommand(s: Settings, prompt: string, tempPath: string): (c: Command)
    ensures IterationBackend(s.runner) == Codex ==> c.program == "codex" && c.input == Some(prompt)
    ensures IterationBackend(s.runner) == Sdk ==> c.program == "uv" && c.input == None
    ensures IterationBackend(s.runner) == Generic ==>
      c.program == s.runner && |c.args| >= 1 && c.args[|c.args| - 1] == prompt
    ensures IterationBackend(s.runner) == Codex ==>
      c == CodexCommand(prompt, s.model, s.effort, s.runnerArgs, s.fullAuto, s.yolo, s.resumeLast, s.resumeId,
                        s.specialization, s.codexJson, tempPath)
    ensures IterationBackend(s.runner) == Sdk ==> c == SdkCommand(tempPath, s.model, s.effort, s.specialization, s.sdkMaxTurns)
    ensures IterationBackend(s.runner) == Generic ==>
      c == GenericCommand(s.runner, s.model, s.promptFlag, prompt, s.runnerArgs, s.yolo)
  {
    match IterationBackend(s.runner)
    case Codex =>
      CodexCommand(prompt, s.model, s.effort, s.runnerArgs, s.fullAuto, s.yolo, s.resumeLast, s.resumeId,
                   s.specialization, s.codexJson, tempPath)
    case Sdk => SdkCommand(tempPath, s.model, s.effort, s.specialization, s.sdkMaxTurns)
    case Generic => GenericCommand(s.runner, s.model, s.promptFlag, prompt, s.runnerArgs, s.yolo)
  }

  /**
   * The command goal inference starts: `codex` without extra arguments,
   * full-auto or resume, or the SDK backend.
   */
  function InferenceCommand(s: Settings, prompt: string, tempPath: string): (c: Command)
    ensures InferenceBackend(s.runner) == Codex ==>
      c.program == "codex" && c.input == Some(prompt) && |c.args| >= 3 && c.args[|c.args| - 3..] == ["--output-last-message", tempPath, "-"]
    ensures InferenceBackend(s.runner) == Sdk ==> c.program == "uv"
    ensures InferenceBackend(s.runner) == Codex ==>
      c == CodexCommand(prompt, s.model, s.effort, [], false, s.yolo, false, None, s.specialization, s.codexJson, tempPath)
    ensures InferenceBackend(s.runner) == Sdk ==> c == SdkCommand(tempPath, s.model, s.effort, s.specialization, s.sdkMaxTurns)
  {
    if s.runner == "sdk" then SdkCommand(tempPath, s.model, s.effort, s.specialization, s.sdkMaxTurns)
    else
      CodexExecTail(s.codexJson, tempPath, false, None, []);
      var c := CodexCommand(prompt, s.model, s.effort, [], false, s.yolo, false, None, s.specialization, s.codexJson, tempPath);
      var g := CodexGlobalArgs(s.model, s.effort, s.specialization, s.yolo, false);
      assert c.args == c.args[..|g| + 1] + CodexExecArgs(s.codexJson, tempPath, false, None, []);
      SuffixOfConcat(c.args[..|g| + 1], CodexExecArgs(s.codexJson, tempPath, false, None, []), 3);
      c
  }
}
