/**
 * The iteration loop at the end of `main` (src/main.rs:1149-1247): up to
 * `iterations` runs of the agent, numbered from 1, each preceded by the
 * runtime check and followed by the log record, the exit-status check, the
 * completion-token check and the iteration-count check. The clock and the
 * runner are parameters: `elapsed(i)` is the whole number of seconds since
 * the start when iteration `i` begins, and `invoke(i)` is what the runner
 * gives for iteration `i`. The log records are collected instead of written,
 * and the echo of the runner's output, the progress lines and the sleep
 * between iterations are not modelled.
 */
module Controller {
  import opened Common
  import opened Text

  /** The settings the loop reads: `--iterations`, `--max-seconds`, `--stop-token` and `--no-log`. */
  datatype Limits = Limits(iterations: u32, maxSeconds: nat, stopToken: string, noLog: bool)

  /** A finished runner process: whether it succeeded, its exit code (none when a signal ended it) and its captured output. */
  datatype Output = Output(success: bool, code: Option<int>, stdout: string, stderr: string)

  /** What `append_log` writes for one iteration, without the timestamp. */
  datatype Record = Record(iteration: nat, stdout: string, stderr: string, code: Option<int>)

  /** The stop reasons the loop prints. */
  datatype Stop = MaxRuntime(seconds: nat) | RunnerTimedOut | TokenDetected | MaxIterations

  /** The errors that end `main` from inside the loop: a runner error passed on, or "Runner exited with code {code}". */
  datatype Fatal = RunnerError(fault: Fault) | RunnerExited(code: int)

  /** The reason as printed after `[ralph] stop: `. */
  function Reason(stop: Stop): string {
    match stop
    case MaxRuntime(seconds) => "reached max runtime (" + NatToString(seconds) + "s)"
    case RunnerTimedOut => "runner timed out"
    case TokenDetected => "completion token detected"
    case MaxIterations => "reached max iterations"
  }

  /** The runtime reason names the limit in decimal digits that read back as the limit. */
  lemma RuntimeReasonNamesLimit(seconds: nat)
    ensures Contains(Reason(MaxRuntime(seconds)), NatToString(seconds))
    ensures ParseDecimal(NatToString(seconds)) == seconds
  {
    var digits := NatToString(seconds);
    assert OccursAt(digits, digits, 0);
    ContainsConcat("reached max runtime (", digits, "s)", digits);
    NatToStringRoundTrip(seconds);
  }

  /** How the loop ends, and the records it appended on the way. */
  datatype Run = Run(result: Result<Option<Stop>, Fatal>, records: seq<Record>)

  /** What one iteration decides: go on to the next one after writing `log`, or leave the loop with `run`. */
  datatype Turn = Continue(log: seq<Record>) | Leave(run: Run)

  /** The record of iteration `i`, unless logging is off. */
  function Log(limits: Limits, i: nat, out: Output): (r: seq<Record>)
    ensures limits.noLog <==> r == []
    ensures r != [] ==> r == [Record(i, out.stdout, out.stderr, out.code)]
  {
    if limits.noLog then [] else [Record(i, out.stdout, out.stderr, out.code)]
  }

  /** The body of the loop for iteration `i`. */
  function Step(limits: Limits, elapsed: nat -> nat, invoke: nat -> Result<Output, Fault>, i: nat): (r: Turn)
    ensures r.Continue? ==> Passes(limits, elapsed, invoke, i) && i != limits.iterations
    ensures r.Continue? ==> r.log == Log(limits, i, invoke(i).value)
    ensures r.Leave? ==> r.run.result != Ok(None)
    ensures r.Leave? && r.run.records != [] ==> GotOutput(limits, elapsed, invoke, i) && r.run.records == Log(limits, i, invoke(i).value)
  {
    if limits.maxSeconds > 0 && elapsed(i) >= limits.maxSeconds then
      Leave(Run(Ok(Some(MaxRuntime(limits.maxSeconds))), []))
    else
      var outcome := invoke(i);
      if outcome.Err? then
        if outcome.error == TimedOut then Leave(Run(Ok(Some(RunnerTimedOut)), []))
        else Leave(Run(Err(RunnerError(outcome.error)), []))
      else
        var out := outcome.value;
        var log := Log(limits, i, out);
        if !out.success then Leave(Run(Err(RunnerExited(out.code.GetOr(1))), log))
        else if Contains(out.stdout, limits.stopToken) then Leave(Run(Ok(Some(TokenDetected)), log))
        else if i == limits.iterations then Leave(Run(Ok(Some(MaxIterations)), log))
        else Continue(log)
  }

  /** The loop from iteration `i` on: nothing happens past the last iteration, when no stop reason is printed. */
  function Iterate(limits: Limits, elapsed: nat -> nat, invoke: nat -> Result<Output, Fault>, i: nat): (r: Run)
    requires 1 <= i
    ensures i > limits.iterations ==> r == Run(Ok(None), [])
    ensures i <= limits.iterations ==> |r.records| <= limits.iterations + 1 - i
    decreases limits.iterations + 1 - i
  {
    if i > limits.iterations then Run(Ok(None), [])
    else
      var turn := Step(limits, elapsed, invoke, i);
      if turn.Leave? then turn.run
      else
        var later := Iterate(limits, elapsed, invoke, i + 1);
        Run(later.result, turn.log + later.records)
  }

  /** Iteration `i` passes every check and lets the loop go on: within the runtime, run, succeeded, no completion token. */
  predicate Passes(limits: Limits, elapsed: nat -> nat, invoke: nat -> Result<Output, Fault>, i: nat) {
    && !(limits.maxSeconds > 0 && elapsed(i) >= limits.maxSeconds)
    && invoke(i).Ok?
    && invoke(i).value.success
    && !Contains(invoke(i).value.stdout, limits.stopToken)
  }

  /** Iteration `i` ran the agent and got its output: within the runtime and the runner did not fail. */
  predicate GotOutput(limits: Limits, elapsed: nat -> nat, invoke: nat -> Result<Output, Fault>, i: nat) {
    !(limits.maxSeconds > 0 && elapsed(i) >= limits.maxSeconds) && invoke(i).Ok?
  }

  /** The iteration the loop leaves at, from iteration `i` on: the first that does not pass, or the last one. */
  function LastIteration(limits: Limits, elapsed: nat -> nat, invoke: nat -> Result<Output, Fault>, i: nat): (e: nat)
    requires 1 <= i <= limits.iterations
    ensures i <= e <= limits.iterations
    ensures forall j :: i <= j < e ==> Passes(limits, elapsed, invoke, j)
    ensures e < limits.iterations ==> !Passes(limits, elapsed, invoke, e)
    decreases limits.iterations - i
  {
    if !Passes(limits, elapsed, invoke, i) || i == limits.iterations then i
    else LastIteration(limits, elapsed, invoke, i + 1)
  }

  /**
   * With logging on, one record is written for every iteration from `i` up to
   * the one the loop leaves at, and one for that one too if it got an output:
   * exit code 2 on iteration 2 of 5 leaves two records.
   */
  lemma {:induction false} RecordCount(limits: Limits, elapsed: nat -> nat, invoke: nat -> Result<Output, Fault>, i: nat)
    requires 1 <= i <= limits.iterations && !limits.noLog
    ensures var e := LastIteration(limits, elapsed, invoke, i);
      |Iterate(limits, elapsed, invoke, i).records| == e - i + (if GotOutput(limits, elapsed, invoke, e) then 1 else 0)
    decreases limits.iterations - i
  {
    StepContinues(limits, elapsed, invoke, i);
    var turn := Step(limits, elapsed, invoke, i);
    if turn.Continue? {
      RecordCount(limits, elapsed, invoke, i + 1);
    } else if GotOutput(limits, elapsed, invoke, i) {
      assert turn.run.records == Log(limits, i, invoke(i).value);
    }
  }

  /** The loop ends as the iteration it leaves at decides: its outcome is that iteration's. */
  lemma {:induction false} EndsAtLastIteration(limits: Limits, elapsed: nat -> nat, invoke: nat -> Result<Output, Fault>, i: nat)
    requires 1 <= i <= limits.iterations
    ensures var e := LastIteration(limits, elapsed, invoke, i);
      Step(limits, elapsed, invoke, e).Leave?
      && Iterate(limits, elapsed, invoke, i).result == Step(limits, elapsed, invoke, e).run.result
    decreases limits.iterations - i
  {
    StepContinues(limits, elapsed, invoke, i);
    if Step(limits, elapsed, invoke, i).Continue? {
      EndsAtLastIteration(limits, elapsed, invoke, i + 1);
    }
  }

  /** On any iteration that ran and succeeded, the completion token in its output stops the loop, after its record. */
  lemma TokenStopsAnyIteration(limits: Limits, elapsed: nat -> nat, invoke: nat -> Result<Output, Fault>, i: nat)
    requires !(limits.maxSeconds > 0 && elapsed(i) >= limits.maxSeconds)
    requires invoke(i).Ok? && invoke(i).value.success && Contains(invoke(i).value.stdout, limits.stopToken)
    ensures Step(limits, elapsed, invoke, i) == Leave(Run(Ok(Some(TokenDetected)), Log(limits, i, invoke(i).value)))
  {
  }

  /**
   * When every iteration before `k` passed and iteration `k` prints the
   * completion token, the loop stops there because of the token, whatever
   * number of iterations is left: a token on iteration 2 of 5 ends the run.
   */
  lemma TokenEndsLoop(limits: Limits, elapsed: nat -> nat, invoke: nat -> Result<Output, Fault>, k: nat)
    requires 1 <= k <= limits.iterations
    requires forall j :: 1 <= j < k ==> Passes(limits, elapsed, invoke, j)
    requires !(limits.maxSeconds > 0 && elapsed(k) >= limits.maxSeconds)
    requires invoke(k).Ok? && invoke(k).value.success && Contains(invoke(k).value.stdout, limits.stopToken)
    ensures Iterate(limits, elapsed, invoke, 1).result == Ok(Some(TokenDetected))
  {
    var e := LastIteration(limits, elapsed, invoke, 1);
    assert !Passes(limits, elapsed, invoke, k);
    assert e == k;
    EndsAtLastIteration(limits, elapsed, invoke, 1);
    TokenStopsAnyIteration(limits, elapsed, invoke, k);
  }

  /** The loop goes on past iteration `i` exactly when `i` passes and is not the last one. */
  lemma StepContinues(limits: Limits, elapsed: nat -> nat, invoke: nat -> Result<Output, Fault>, i: nat)
    ensures Step(limits, elapsed, invoke, i).Continue? <==> Passes(limits, elapsed, invoke, i) && i != limits.iterations
  {
  }

  /** The runtime check comes first: once the time is up the runner is not called, so what it would give makes no difference. */
  lemma RuntimeCheckedBeforeInvocation(limits: Limits, elapsed: nat -> nat,
                                       invoke: nat -> Result<Output, Fault>, other: nat -> Result<Output, Fault>, i: nat)
    requires limits.maxSeconds > 0 && elapsed(i) >= limits.maxSeconds
    ensures Step(limits, elapsed, invoke, i) == Step(limits, elapsed, other, i) == Leave(Run(Ok(Some(MaxRuntime(limits.maxSeconds))), []))
  {
  }

  /** With no runtime limit the clock is never looked at. */
  lemma NoLimitIgnoresClock(limits: Limits, elapsed: nat -> nat, other: nat -> nat,
                            invoke: nat -> Result<Output, Fault>, i: nat)
    requires limits.maxSeconds == 0
    ensures Step(limits, elapsed, invoke, i) == Step(limits, other, invoke, i)
  {
  }

  /** A timeout stops the loop without error and without a record; any other runner error is fatal, also without a record. */
  lemma RunnerErrorsWriteNoRecord(limits: Limits, elapsed: nat -> nat, invoke: nat -> Result<Output, Fault>, i: nat)
    requires !(limits.maxSeconds > 0 && elapsed(i) >= limits.maxSeconds) && invoke(i).Err?
    ensures invoke(i).error == TimedOut ==> Step(limits, elapsed, invoke, i) == Leave(Run(Ok(Some(RunnerTimedOut)), []))
    ensures invoke(i).error != TimedOut ==> Step(limits, elapsed, invoke, i) == Leave(Run(Err(RunnerError(invoke(i).error)), []))
  {
  }

  /**
   * A failed exit is fatal with no stop reason, after its record is written,
   * and whatever its output holds: the exit status is checked before the
   * completion token. A missing exit code is reported as 1.
   */
  lemma FailedExitLoggedThenFatal(limits: Limits, elapsed: nat -> nat, invoke: nat -> Result<Output, Fault>, i: nat)
    requires !(limits.maxSeconds > 0 && elapsed(i) >= limits.maxSeconds)
    requires invoke(i).Ok? && !invoke(i).value.success
    ensures var out := invoke(i).value;
      Step(limits, elapsed, invoke, i) == Leave(Run(Err(RunnerExited(out.code.GetOr(1))), Log(limits, i, out)))
    ensures invoke(i).value.code.None? ==> Step(limits, elapsed, invoke, i).run.result == Err(RunnerExited(1))
  {
  }

  /** The completion token is checked before the iteration count: found on the last iteration, it is the reason given. */
  lemma TokenBeforeMaxIterations(limits: Limits, elapsed: nat -> nat, invoke: nat -> Result<Output, Fault>)
    requires limits.iterations >= 1
    requires !(limits.maxSeconds > 0 && elapsed(limits.iterations) >= limits.maxSeconds)
    requires invoke(limits.iterations).Ok? && invoke(limits.iterations).value.success
    requires Contains(invoke(limits.iterations).value.stdout, limits.stopToken)
    ensures Step(limits, elapsed, invoke, limits.iterations).run.result == Ok(Some(TokenDetected))
  {
  }

  /** Records are written only for iterations `i` to the last, one per iteration, numbered in order; none with logging off. */
  lemma {:induction false} RecordsInOrder(limits: Limits, elapsed: nat -> nat, invoke: nat -> Result<Output, Fault>, i: nat)
    requires 1 <= i
    ensures var r := Iterate(limits, elapsed, invoke, i);
      && (limits.noLog ==> r.records == [])
      && (r.records != [] ==> i + |r.records| <= limits.iterations + 1)
      && (!limits.noLog ==> forall k :: 0 <= k < |r.records| ==> r.records[k].iteration == i + k)
    decreases limits.iterations + 1 - i
  {
    if i <= limits.iterations {
      var turn := Step(limits, elapsed, invoke, i);
      if turn.Continue? {
        RecordsInOrder(limits, elapsed, invoke, i + 1);
        var later := Iterate(limits, elapsed, invoke, i + 1);
        assert turn.log == Log(limits, i, invoke(i).value);
        PrependRecord(limits.noLog, turn.log, later.records, i);
      }
    }
  }

  /** One record for iteration `i` in front of records numbered from `i + 1` gives records numbered from `i`. */
  lemma PrependRecord(noLog: bool, log: seq<Record>, later: seq<Record>, i: nat)
    requires noLog <==> log == []
    requires log != [] ==> |log| == 1 && log[0].iteration == i
    requires noLog ==> later == []
    requires !noLog ==> forall k :: 0 <= k < |later| ==> later[k].iteration == i + 1 + k
    ensures noLog ==> log + later == []
    ensures !noLog ==> forall k :: 0 <= k < |log + later| ==> (log + later)[k].iteration == i + k
  {
  }

  /**
   * When the loop ends in "Runner exited with code {code}", the last record
   * written is that of the failing iteration and carries the same code.
   */
  lemma {:induction false} FailingRecordWrittenLast(limits: Limits, elapsed: nat -> nat,
                                                    invoke: nat -> Result<Output, Fault>, i: nat)
    requires 1 <= i && !limits.noLog
    ensures var r := Iterate(limits, elapsed, invoke, i);
      r.result.Err? && r.result.error.RunnerExited? ==>
        && r.records != []
        && var last := r.records[|r.records| - 1];
           && invoke(last.iteration).Ok?
           && !invoke(last.iteration).value.success
           && r.result.error.code == last.code.GetOr(1)
    decreases limits.iterations + 1 - i
  {
    if i <= limits.iterations {
      var turn := Step(limits, elapsed, invoke, i);
      if turn.Continue? {
        FailingRecordWrittenLast(limits, elapsed, invoke, i + 1);
        var later := Iterate(limits, elapsed, invoke, i + 1);
        if later.records != [] {
          LastOfConcat(turn.log, later.records);
        }
      }
    }
  }

  lemma LastOfConcat<T>(a: seq<T>, b: seq<T>)
    requires b != []
    ensures (a + b)[|a + b| - 1] == b[|b| - 1]
  {
  }

  /** A timeout is never fatal: the runner errors that end `main` are the other ones. */
  lemma {:induction false} TimeoutNeverFatal(limits: Limits, elapsed: nat -> nat, invoke: nat -> Result<Output, Fault>, i: nat)
    requires 1 <= i
    ensures var r := Iterate(limits, elapsed, invoke, i);
      r.result.Err? && r.result.error.RunnerError? ==> r.result.error.fault != TimedOut
    decreases limits.iterations + 1 - i
  {
    if i <= limits.iterations && Step(limits, elapsed, invoke, i).Continue? {
      TimeoutNeverFatal(limits, elapsed, invoke, i + 1);
    }
  }

  /** "Reached max iterations" is the reason exactly when every iteration from `i` to the last passed its checks. */
  lemma {:induction false} MaxIterationsOnlyAtLast(limits: Limits, elapsed: nat -> nat,
                                                   invoke: nat -> Result<Output, Fault>, i: nat)
    requires 1 <= i
    ensures Iterate(limits, elapsed, invoke, i).result == Ok(Some(MaxIterations))
        <==> i <= limits.iterations && forall j :: i <= j <= limits.iterations ==> Passes(limits, elapsed, invoke, j)
    decreases limits.iterations + 1 - i
  {
    if i <= limits.iterations {
      StepContinues(limits, elapsed, invoke, i);
      ShiftPasses(limits, elapsed, invoke, i);
      if i < limits.iterations {
        MaxIterationsOnlyAtLast(limits, elapsed, invoke, i + 1);
      }
    }
  }

  /** All of `i` to the last pass exactly when `i` does and all of `i + 1` to the last do. */
  lemma ShiftPasses(limits: Limits, elapsed: nat -> nat, invoke: nat -> Result<Output, Fault>, i: nat)
    ensures (forall j :: i <= j <= limits.iterations ==> Passes(limits, elapsed, invoke, j))
        <==> (i <= limits.iterations ==> Passes(limits, elapsed, invoke, i))
             && forall j :: i + 1 <= j <= limits.iterations ==> Passes(limits, elapsed, invoke, j)
  {
  }

  /** A stop reason is printed whenever at least one iteration was allowed: the loop ends without one only when there are none. */
  lemma {:induction false} NoStopReasonOnlyWithoutIterations(limits: Limits, elapsed: nat -> nat,
                                                             invoke: nat -> Result<Output, Fault>, i: nat)
    requires 1 <= i
    ensures Iterate(limits, elapsed, invoke, i).result == Ok(None) <==> i > limits.iterations
    decreases limits.iterations + 1 - i
  {
    if i <= limits.iterations && Step(limits, elapsed, invoke, i).Continue? {
      NoStopReasonOnlyWithoutIterations(limits, elapsed, invoke, i + 1);
    }
  }

  /** Iteration `i` of the loop from `i` on: its turn, then either the end or the loop from `i + 1`. */
  lemma IterateUnfold(limits: Limits, elapsed: nat -> nat, invoke: nat -> Result<Output, Fault>, i: nat)
    requires 1 <= i <= limits.iterations
    ensures var turn := Step(limits, elapsed, invoke, i);
      Iterate(limits, elapsed, invoke, i)
        == if turn.Leave? then turn.run
           else Run(Iterate(limits, elapsed, invoke, i + 1).result, turn.log + Iterate(limits, elapsed, invoke, i + 1).records)
  {
  }

  /** Records written so far, then the log of one more iteration, then the records of the rest. */
  lemma AppendRecords(done: seq<Record>, log: seq<Record>, later: seq<Record>)
    ensures done + (log + later) == (done + log) + later
  {
  }

  /** The loop of `main`: iterations numbered from 1, records appended as they are written. */
  method RunIterations(limits: Limits, elapsed: nat -> nat, invoke: nat -> Result<Output, Fault>)
    returns (result: Result<Option<Stop>, Fatal>, records: seq<Record>)
    ensures Run(result, records) == Iterate(limits, elapsed, invoke, 1)
  {
    records := [];
    var stopReason: Option<Stop> := None;
    var i: nat := 1;
    while i <= limits.iterations
      invariant 1 <= i <= limits.iterations + 1
      invariant Iterate(limits, elapsed, invoke, 1) == Run(Iterate(limits, elapsed, invoke, i).result,
                                                           records + Iterate(limits, elapsed, invoke, i).records)
      decreases limits.iterations + 1 - i
    {
      ghost var turn := Step(limits, elapsed, invoke, i);
      IterateUnfold(limits, elapsed, invoke, i);
      if limits.maxSeconds > 0 && elapsed(i) >= limits.maxSeconds {
        assert turn.run == Run(Ok(Some(MaxRuntime(limits.maxSeconds))), []);
        stopReason := Some(MaxRuntime(limits.maxSeconds));
        break;
      }
      var outcome := invoke(i);
      if outcome.Err? {
        if outcome.error == TimedOut {
          assert turn.run == Run(Ok(Some(RunnerTimedOut)), []);
          stopReason := Some(RunnerTimedOut);
          break;
        }
        assert turn.run == Run(Err(RunnerError(outcome.error)), []);
        return Err(RunnerError(outcome.error)), records;
      }
      var out := outcome.value;
      ghost var done := records;
      if !limits.noLog {
        records := records + [Record(i, out.stdout, out.stderr, out.code)];
      }
      assert records == done + Log(limits, i, out);
      if !out.success {
        assert turn.run == Run(Err(RunnerExited(out.code.GetOr(1))), Log(limits, i, out));
        return Err(RunnerExited(out.code.GetOr(1))), records;
      }
      if Contains(out.stdout, limits.stopToken) {
        assert turn.run == Run(Ok(Some(TokenDetected)), Log(limits, i, out));
        stopReason := Some(TokenDetected);
        break;
      }
      if i == limits.iterations {
        assert turn.run == Run(Ok(Some(MaxIterations)), Log(limits, i, out));
        stopReason := Some(MaxIterations);
        break;
      }
      assert turn == Continue(Log(limits, i, out));
      AppendRecords(done, Log(limits, i, out), Iterate(limits, elapsed, invoke, i + 1).records);
      i := i + 1;
    }
    result := Ok(stopReason);
  }
}
