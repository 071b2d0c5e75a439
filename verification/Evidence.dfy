/** From a Runner's result bundle to the terminal state of an Attempt. */
module Evidence {
  import opened Types
  import Capture

  datatype Result<+T> = Ok(value: T) | Err(error: string)

  datatype RunnerStatus = Completed | FailedStatus | CancelledStatus

  datatype RunnerResult = RunnerResult(
    taskId: string, jobId: Option<string>, attemptId: Option<string>, launchTokenDigest: Option<string>,
    payloadUid: Option<nat>, payloadGid: Option<nat>,
    status: RunnerStatus, exitCode: Option<int>, timedOut: bool,
    infrastructureErrorCode: Option<string>, infrastructureError: Option<string>,
    finishedUnixMs: nat, stdout: Capture.CapturedOutput, stderr: Capture.CapturedOutput)

  /** The columns of an Attempt that the import looks at. */
  datatype Subject = Subject(
    attemptId: string, jobId: string, launchTokenDigest: string,
    state: AttemptState, intent: TerminationIntent, rowVersion: nat)

  /** What the bundle directory holds; `parsed` is result.json read as JSON. */
  datatype Bundle = Bundle(
    resultBytes: Option<Bytes>, parsed: Option<RunnerResult>,
    stdoutFile: Option<Bytes>, stderrFile: Option<Bytes>)

  datatype Registration = Registration(artifactId: string, kind: string, relativePath: string, digest: string,
    byteLength: nat, truncated: bool)

  datatype TerminalCommit = TerminalCommit(
    attemptId: string, expectedRowVersion: nat, state: AttemptState, resultDigest: string,
    exitCode: Option<int>, infrastructureErrorDigest: Option<string>, finishedAtMs: nat,
    artifacts: seq<Registration>, reasonCode: string)

  /** The digest function; its only assumed property is stated where it is needed. */
  type Sha = Bytes -> string

  function SameSubject(a: Subject): (string, string, string) {
    (a.attemptId, a.jobId, a.launchTokenDigest)
  }

  /** The state a Runner result stands for, with the reason recorded for it. */
  function StateAndReason(current: Subject, result: RunnerResult): (AttemptState, string) {
    match result.status
    case Completed =>
      if current.state == Stopping || current.intent == StopRequested
      then (Succeeded, "PROCESS_COMPLETED_BEFORE_STOP_EFFECTIVE")
      else (Succeeded, "PROCESS_EXIT_ZERO")
    case CancelledStatus => (Cancelled, "STOP_REQUESTED")
    case FailedStatus =>
      if result.timedOut then (TimedOut, "DEADLINE_EXCEEDED")
      else if result.infrastructureErrorCode == Some("WORKSPACE_STATE_MISMATCH")
        then (Failed, "WORKSPACE_SOURCE_PRECONDITION_DRIFT")
      else if result.infrastructureErrorCode == Some("INPUT_STATE_MISMATCH") then (Failed, "INPUT_PRECONDITION_DRIFT")
      else if result.infrastructureErrorCode == Some("HOST_DEPENDENCY_RUNTIME_DRIFT")
        then (Failed, "HOST_DEPENDENCY_RUNTIME_DRIFT")
      else if result.infrastructureErrorCode == Some("EXECUTABLE_RUNTIME_DRIFT")
        then (Failed, "EXECUTABLE_RUNTIME_DRIFT")
      else if result.infrastructureErrorCode.Some? then (Failed, "RUNNER_INFRASTRUCTURE_FAILURE")
      else (Failed, "PROCESS_EXIT_NONZERO")
  }

  /** The codes of a Runner that found its inputs changed, with the reason recorded for each. */
  predicate IsDrift(code: string, reason: string) {
    || (code == "WORKSPACE_STATE_MISMATCH" && reason == "WORKSPACE_SOURCE_PRECONDITION_DRIFT")
    || (code == "INPUT_STATE_MISMATCH" && reason == "INPUT_PRECONDITION_DRIFT")
    || (code == "HOST_DEPENDENCY_RUNTIME_DRIFT" && reason == code)
    || (code == "EXECUTABLE_RUNTIME_DRIFT" && reason == code)
  }

  /** State and reason name the cause: each is recorded for exactly the results that have it. A result that came
      before a stop took effect is a success all the same. */
  lemma StateAndReasonNameTheCause(current: Subject, result: RunnerResult)
    ensures var (state, reason) := StateAndReason(current, result);
      var code := result.infrastructureErrorCode;
      && (state == Succeeded <==> result.status == Completed)
      && (state == Cancelled <==> result.status == CancelledStatus)
      && (state == TimedOut <==> result.status == FailedStatus && result.timedOut)
      && (state == Failed <==> result.status == FailedStatus && !result.timedOut)
      && (state == Cancelled ==> reason == "STOP_REQUESTED") && (state == TimedOut ==> reason == "DEADLINE_EXCEEDED")
      && (reason == "PROCESS_COMPLETED_BEFORE_STOP_EFFECTIVE" <==>
            state == Succeeded && (current.state == Stopping || current.intent == StopRequested))
      && (reason == "PROCESS_EXIT_ZERO" <==>
            state == Succeeded && current.state != Stopping && current.intent != StopRequested)
      && (reason == "PROCESS_EXIT_NONZERO" <==> state == Failed && code == None)
      && (state == Failed && code.Some? ==> IsDrift(code.value, reason) || reason == "RUNNER_INFRASTRUCTURE_FAILURE")
      && (reason == "RUNNER_INFRASTRUCTURE_FAILURE" <==>
            state == Failed && code.Some? && forall drift :: !IsDrift(code.value, drift))
  {
    if result.infrastructureErrorCode.Some? {
      var code := result.infrastructureErrorCode.value;
      assert IsDrift("WORKSPACE_STATE_MISMATCH", "WORKSPACE_SOURCE_PRECONDITION_DRIFT");
      assert IsDrift("INPUT_STATE_MISMATCH", "INPUT_PRECONDITION_DRIFT");
      assert IsDrift("HOST_DEPENDENCY_RUNTIME_DRIFT", "HOST_DEPENDENCY_RUNTIME_DRIFT");
      assert IsDrift("EXECUTABLE_RUNTIME_DRIFT", "EXECUTABLE_RUNTIME_DRIFT");
    }
  }

  function SaturateU64(n: nat): nat {
    if n < Capture.U64 then n else Capture.U64 - 1
  }

  function CheckOutput(
    sha: Sha, attemptId: string, isStdout: bool, output: Capture.CapturedOutput,
      file: Option<Bytes>): Result<Registration>
  {
    if output.fileName != Capture.FileName(isStdout)
      || output.artifactId != Capture.ArtifactId(attemptId, isStdout) then
      Err("Runner output identity does not match Attempt")
    else if file.None? then Err("inspect output")
    else match Capture.ValidateCapturedOutput(sha, attemptId, isStdout, output, file.value)
      case Err(error) => Err(error)
      case Ok(artifact) =>
        Ok(Registration(artifact.artifactId, if isStdout then "stdout" else "stderr", artifact.fileName,
                        artifact.digest, artifact.byteLength, artifact.truncated))
  }

  function PrepareRunnerTerminal(
    sha: Sha, textSha: string -> string, current: Subject, bundle: Bundle): Result<TerminalCommit>
  {
    if bundle.resultBytes.None? then Err("read Runner result")
    else if bundle.parsed.None? then Err("invalid Runner result")
    else
      var result := bundle.parsed.value;
      if result.taskId != current.attemptId || result.jobId != Some(current.jobId)
         || result.attemptId != Some(current.attemptId) || result.launchTokenDigest != Some(current.launchTokenDigest)
         || result.payloadUid.Some? || result.payloadGid.Some?
      then Err("Runner result identity does not match committed Attempt")
      else match (CheckOutput(sha, current.attemptId, true, result.stdout, bundle.stdoutFile),
                  CheckOutput(sha, current.attemptId, false, result.stderr, bundle.stderrFile))
        case (Err(error), _) => Err(error)
        case (Ok(_), Err(error)) => Err(error)
        case (Ok(stdout), Ok(stderr)) =>
          var digest := sha(bundle.resultBytes.value);
          var (state, reason) := StateAndReason(current, result);
          Ok(TerminalCommit(
            current.attemptId, current.rowVersion, state, digest, result.exitCode,
            if result.infrastructureError.Some? then Some(textSha(result.infrastructureError.value)) else None,
            SaturateU64(result.finishedUnixMs),
            [stdout, stderr,
             Registration(current.attemptId + ".result", "execution_result", "result.json", digest,
                          |bundle.resultBytes.value|, false)],
            reason))
  }

  /** The result was written for this very launch, by a launcher without payload identities. */
  predicate NamesTheAttempt(result: RunnerResult, current: Subject) {
    && result.taskId == current.attemptId && result.attemptId == Some(current.attemptId)
    && result.jobId == Some(current.jobId) && result.launchTokenDigest == Some(current.launchTokenDigest)
    && result.payloadUid.None? && result.payloadGid.None?
  }

  /** The file found is the one the record describes. */
  predicate IsIntact(sha: Sha, attemptId: string, isStdout: bool, output: Capture.CapturedOutput, file: Option<Bytes>) {
    && file.Some? && output.digest == sha(file.value) && output.retainedBytes == |file.value|
    && output.fileName == Capture.FileName(isStdout) && output.artifactId == Capture.ArtifactId(attemptId, isStdout)
  }

  /** The commit's time is the result's, as far as 64 bits hold it, and it names an infrastructure error exactly
      when the result does. */
  predicate TellsWhenAndWhy(textSha: string -> string, result: RunnerResult, terminal: TerminalCommit) {
    && terminal.finishedAtMs <= result.finishedUnixMs && terminal.finishedAtMs < Capture.U64
    && (result.finishedUnixMs < Capture.U64 ==> terminal.finishedAtMs == result.finishedUnixMs)
    && (terminal.infrastructureErrorDigest.Some? <==> result.infrastructureError.Some?)
    && (result.infrastructureError.Some? ==>
          terminal.infrastructureErrorDigest == Some(textSha(result.infrastructureError.value)))
  }

  /** A bundle is imported exactly when it is complete, names this Attempt and both captures are intact;
      the three artifacts are then the three files as found. */
  lemma ImportAcceptsExactlyWhen(sha: Sha, textSha: string -> string, current: Subject, bundle: Bundle)
    ensures var imported := PrepareRunnerTerminal(sha, textSha, current, bundle);
      && (imported.Ok? <==>
            && bundle.resultBytes.Some? && bundle.parsed.Some? && NamesTheAttempt(bundle.parsed.value, current)
            && IsIntact(sha, current.attemptId, true, bundle.parsed.value.stdout, bundle.stdoutFile)
            && IsIntact(sha, current.attemptId, false, bundle.parsed.value.stderr, bundle.stderrFile))
      && (imported.Ok? ==>
            var terminal := imported.value;
            && terminal.resultDigest == sha(bundle.resultBytes.value)
            && terminal.attemptId == current.attemptId && terminal.expectedRowVersion == current.rowVersion
            && terminal.exitCode == bundle.parsed.value.exitCode
            && (terminal.state, terminal.reasonCode) == StateAndReason(current, bundle.parsed.value)
            && terminal.artifacts == [
                 Registration(current.attemptId + ".stdout", "stdout", "stdout.log", sha(bundle.stdoutFile.value),
                              |bundle.stdoutFile.value|, bundle.parsed.value.stdout.truncated),
                 Registration(current.attemptId + ".stderr", "stderr", "stderr.log", sha(bundle.stderrFile.value),
                              |bundle.stderrFile.value|, bundle.parsed.value.stderr.truncated),
                 Registration(current.attemptId + ".result", "execution_result", "result.json", terminal.resultDigest,
                              |bundle.resultBytes.value|, false)])
      && (imported.Ok? ==> TellsWhenAndWhy(textSha, bundle.parsed.value, imported.value))
  {
  }

  /** A result that the launcher wrote about these two captured streams. */
  ghost predicate WasCaptured(
    sha: Sha, result: RunnerResult, attemptId: string, out: Bytes, outLimit: nat, err: Bytes, errLimit: nat)
  {
    && Capture.Recorded(sha, attemptId, true, out, outLimit) == Capture.Ok(result.stdout)
    && Capture.Recorded(sha, attemptId, false, err, errLimit) == Capture.Ok(result.stderr)
  }

  /** From the launcher to the Runtime: a result written for an Attempt is imported for it if and only if the
      two files found are the retained output, of which the commit then names the true lengths; it is imported
      for no other Attempt, Job or launch. */
  lemma LauncherBundleRoundTrip(
    sha: Sha, textSha: string -> string, current: Subject, bundle: Bundle, out: Bytes, outLimit: nat, err: Bytes,
      errLimit: nat)
    requires outLimit < Capture.U64 && errLimit < Capture.U64 && Capture.Injective(sha)
    requires bundle.resultBytes.Some? && bundle.parsed.Some? && NamesTheAttempt(bundle.parsed.value, current)
    requires WasCaptured(sha, bundle.parsed.value, current.attemptId, out, outLimit, err, errLimit)
    ensures var imported := PrepareRunnerTerminal(sha, textSha, current, bundle);
      && (imported.Ok? <==>
            && bundle.stdoutFile == Some(Capture.Retained(out, outLimit))
            && bundle.stderrFile == Some(Capture.Retained(err, errLimit)))
      && (imported.Ok? ==>
            && imported.value.artifacts[0].byteLength == Capture.Min(outLimit, |out|)
            && imported.value.artifacts[1].byteLength == Capture.Min(errLimit, |err|)
            && (|out| < Capture.U64 ==> (imported.value.artifacts[0].truncated <==> |out| > outLimit))
            && (|err| < Capture.U64 ==> (imported.value.artifacts[1].truncated <==> |err| > errLimit))
            && imported.value.artifacts[2].digest == sha(bundle.resultBytes.value) == imported.value.resultDigest
            && TellsWhenAndWhy(textSha, bundle.parsed.value, imported.value))
    ensures forall other: Subject | SameSubject(other) != SameSubject(current) ::
      PrepareRunnerTerminal(sha, textSha, other, bundle).Err?
  {
    ImportAcceptsExactlyWhen(sha, textSha, current, bundle);
    Capture.TruncatedIsTruthful(|out|, outLimit);
    Capture.TruncatedIsTruthful(|err|, errLimit);
    forall other: Subject | SameSubject(other) != SameSubject(current)
      ensures PrepareRunnerTerminal(sha, textSha, other, bundle).Err? {
      ImportAcceptsExactlyWhen(sha, textSha, other, bundle);
    }
  }

  /** Reading the same bundle for the same Attempt gives the same verdict whatever the
      Attempt's state has become meanwhile; only a Runner-terminal state comes out. */
  lemma TerminalIsAFunctionOfTheBundle(
    sha: Sha, textSha: string -> string, before: Subject, after: Subject, bundle: Bundle)
    requires SameSubject(before) == SameSubject(after)
    ensures var first := PrepareRunnerTerminal(sha, textSha, before, bundle);
            var second := PrepareRunnerTerminal(sha, textSha, after, bundle);
            && (first.Ok? <==> second.Ok?)
            && (first.Ok? ==>
                && IsRunnerTerminal(first.value.state)
                && first.value.attemptId == before.attemptId && first.value.expectedRowVersion == before.rowVersion
                && first.value.state == second.value.state
                && first.value.resultDigest == second.value.resultDigest
                && first.value.exitCode == second.value.exitCode
                && first.value.finishedAtMs == second.value.finishedAtMs)
  {
  }
}
