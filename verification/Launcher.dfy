/** The Windows launcher as a protocol: one program counter per statement that
    matters of `RunRuntime`, an exception or a crash possible at every one of them,
    and a world that changes in between.
 */
module Launcher {
  import opened Types
  import Evidence
  import Supervisor

  /** The statements of the try block in order, then the way out. */
  datatype Pc =
    | VerifyRequest | CreateJob | ConfigureLimits | ConfigureCpu | LauncherEvidence | AcquirePower
    | Prepare | CreateTarget | AssignJob | CheckJob | StartEvidence | StartCapture
    | CancelCheck | CancelBeforeResume | Resume
    | Wait | PollCancel | KillCancelled | PollClock | KillTimedOut
    | FinalWait | ReadExit | CloseJob | JoinCapture | CheckCapture | ReleasePower | Publish
    | Catch | FinallyPower | FinallyJob | Gone

  /** The target process. A dying process has been terminated: it executes nothing
      any more but is not yet signalled to its waiters. */
  datatype Process = Absent | Suspended | Executing | Dying(exitCode: int) | Dead(exitCode: int)

  datatype Reader = Idle | Reading | Finished(failed: bool)

  /** The part of result.json that decides the outcome. */
  datatype Outcome = Outcome(status: Evidence.RunnerStatus, exitCode: int, timedOut: bool)

  /** Who answers to the launcher's process number: the launcher, nobody, or a process
      created that much later. */
  datatype PidHolder = Launcher | Nobody | Stranger(later: nat)

  /** The named Job object: the launcher's handle, the handles of others, its limit. */
  datatype Job = Job(held: bool, others: nat, killOnClose: bool)

  /** The target, its descendants inside the Job and those outside any Job. */
  datatype Tree = Tree(target: Process, inJob: bool, family: set<nat>, strays: set<nat>, everExecuted: bool)

  datatype Files = Files(startEvidence: bool, cancelMarker: bool, result: Option<Outcome>)

  datatype Resources = Resources(stdout: Reader, stderr: Reader, power: bool)

  datatype Locals = Locals(resumed: bool, cancelled: bool, timedOut: bool, exitCode: int)

  /** What happened, for the statements only: the code with which the target exited by itself, if it did. */
  datatype History = History(markerRemoved: bool, published: nat, crashed: bool, ownExit: Option<int>)

  datatype State = State(
    pc: Pc, pid: PidHolder, job: Job, tree: Tree, files: Files, held: Resources, flags: Locals, history: History)

  datatype Label =
    // the launcher
    | Advance | TimesOut | Expires | Throw | Crash
    // its surroundings
    | MarkerAppears | MarkerRemoved
    | TargetExits(code: int) | TargetDies | Forks(id: nat) | DescendantExits(id: nat)
    | ReaderEnds(isStdout: bool, failed: bool)
    | PidReused(later: nat) | PidFreed
    | HandleOpened | HandleClosed

  const CANCELLED_EXIT: int := 125
  const TIMED_OUT_EXIT: int := 124
  const INTERNAL_FAILURE_EXIT: int := 125

  predicate Initial(s: State) {
    && s.pc == VerifyRequest && s.pid == Launcher
    && !s.job.held && !s.job.killOnClose
    && s.tree.target == Absent && !s.tree.inJob && s.tree.family == {} && s.tree.strays == {} && !s.tree.everExecuted
    && !s.files.startEvidence && s.held.stdout == Idle && s.held.stderr == Idle && !s.held.power
    && !s.flags.resumed && !s.flags.cancelled && !s.flags.timedOut && !s.history.markerRemoved
    && s.history.published == 0 && !s.history.crashed && s.history.ownExit == None
  }

  predicate SomebodyExecutes(s: State) {
    s.tree.target == Executing || s.tree.family != {} || s.tree.strays != {}
  }

  // ------------------------------------------------------------ the operations

  /** Terminates everything in the Job. */
  function KillTree(tree: Tree, code: int): Tree {
    tree.(target := if tree.inJob && (tree.target == Executing || tree.target == Suspended) then Dying(code)
      else tree.target,
          family := {})
  }

  /** What is left of the tree once the handles are as given: closing the last handle to
      a kill-on-close Job kills its members. */
  function Settle(tree: Tree, job: Job): Tree {
    if !job.held && job.others == 0 && job.killOnClose then KillTree(tree, 0) else tree
  }

  function ReleaseJob(s: State): State {
    var job := s.job.(held := false);
    s.(job := job, tree := if s.job.held then Settle(s.tree, job) else s.tree)
  }

  /** Process exit: the kernel closes whatever is still open. */
  function Vanish(s: State): State {
    ReleaseJob(s).(pc := Gone, pid := Nobody, held := s.held.(power := false))
  }

  function ResultOf(exitCode: int, timedOut: bool, cancelled: bool): Outcome {
    var succeeded := !timedOut && !cancelled && exitCode == 0;
    Outcome(if cancelled then Evidence.CancelledStatus else if succeeded then Evidence.Completed
      else Evidence.FailedStatus,
            exitCode, timedOut)
  }

  /** Where the launcher can go on. */
  predicate CanAdvance(s: State) {
    match s.pc
    case Gone => false
    case CheckJob => s.tree.inJob
    case Wait => s.tree.target.Dead?
    case FinalWait => s.tree.target.Dead?
    case ReadExit => s.tree.target.Dead?
    case JoinCapture => s.held.stdout.Finished? && s.held.stderr.Finished?
    case CheckCapture => s.held.stdout == Finished(false) && s.held.stderr == Finished(false)
    case Publish => s.files.result == None
    case _ => true
  }

  function AdvanceFrom(s: State): State
    requires CanAdvance(s)
  {
    match s.pc
    case VerifyRequest => s.(pc := CreateJob)
    case CreateJob => s.(pc := ConfigureLimits, job := s.job.(held := true))
    case ConfigureLimits => s.(pc := ConfigureCpu, job := s.job.(killOnClose := true))
    case ConfigureCpu => s.(pc := LauncherEvidence)
    case LauncherEvidence => s.(pc := AcquirePower)
    case AcquirePower => s.(pc := Prepare, held := s.held.(power := true))
    case Prepare => s.(pc := CreateTarget)
    case CreateTarget => s.(pc := AssignJob, tree := s.tree.(target := Suspended))
    case AssignJob => s.(pc := CheckJob, tree := s.tree.(inJob := true))
    case CheckJob => s.(pc := StartEvidence)
    case StartEvidence => s.(pc := StartCapture, files := s.files.(startEvidence := true))
    case StartCapture => s.(pc := CancelCheck, held := s.held.(stdout := Reading, stderr := Reading))
    case CancelCheck => 
      if s.files.cancelMarker then s.(pc := CancelBeforeResume, flags := s.flags.(cancelled := true))
      else s.(pc := Resume)
    case CancelBeforeResume => s.(pc := Wait, tree := KillTree(s.tree, CANCELLED_EXIT))
    case Resume =>
      s.(pc := Wait, flags := s.flags.(resumed := true),
         tree := if s.tree.target == Suspended then s.tree.(target := Executing, everExecuted := true) else s.tree)
    case Wait => s.(pc := FinalWait)
    case PollCancel => 
      if s.files.cancelMarker then s.(pc := KillCancelled, flags := s.flags.(cancelled := true))
      else s.(pc := PollClock)
    case KillCancelled => s.(pc := FinalWait, tree := KillTree(s.tree, CANCELLED_EXIT))
    case PollClock => s.(pc := Wait)
    case KillTimedOut => s.(pc := FinalWait, tree := KillTree(s.tree, TIMED_OUT_EXIT))
    case FinalWait => s.(pc := ReadExit)
    case ReadExit => s.(pc := CloseJob, flags := s.flags.(exitCode := s.tree.target.exitCode))
    case CloseJob => ReleaseJob(s).(pc := JoinCapture)
    case JoinCapture => s.(pc := CheckCapture)
    case CheckCapture => s.(pc := ReleasePower)
    case ReleasePower => s.(pc := Publish, held := s.held.(power := false))
    case Publish =>
      s.(pc := FinallyPower,
         files := s.files.(result := Some(ResultOf(s.flags.exitCode, s.flags.timedOut, s.flags.cancelled))),
         history := s.history.(published := s.history.published + 1))
    case Catch =>
      s.(pc := FinallyPower,
         tree := if !s.flags.resumed && s.tree.target == Suspended
                 then s.tree.(target := Dying(INTERNAL_FAILURE_EXIT)) else s.tree)
    case FinallyPower => s.(pc := FinallyJob, held := s.held.(power := false))
    case FinallyJob => Vanish(s)
  }

  predicate InTryBlock(pc: Pc) {
    pc != Catch && pc != FinallyPower && pc != FinallyJob && pc != Gone
  }

  predicate Enabled(s: State, l: Label) {
    match l
    case Advance => CanAdvance(s)
    case TimesOut => s.pc == Wait && !s.tree.target.Dead?
    case Expires => s.pc == PollClock
    case Throw => InTryBlock(s.pc)
    case Crash => s.pc != Gone
    case MarkerAppears => true
    case MarkerRemoved => s.files.cancelMarker
    case TargetExits(_) => s.tree.target == Executing
    case TargetDies => s.tree.target.Dying?
    case Forks(id) => SomebodyExecutes(s) && id !in s.tree.family && id !in s.tree.strays
    case DescendantExits(id) => id in s.tree.family || id in s.tree.strays
    case ReaderEnds(isStdout, _) => (if isStdout then s.held.stdout else s.held.stderr) == Reading
    case PidReused(later) => s.pid == Nobody
    case PidFreed => s.pid.Stranger?
    case HandleOpened => s.job.held || s.job.others > 0
    case HandleClosed => s.job.others > 0
  }

  function Next(s: State, l: Label): State
    requires Enabled(s, l)
  {
    match l
    case Advance => AdvanceFrom(s)
    case TimesOut => s.(pc := PollCancel)
    case Expires => s.(pc := KillTimedOut, flags := s.flags.(timedOut := true))
    case Throw => s.(pc := Catch)
    case Crash => Vanish(s).(history := s.history.(crashed := true))
    case MarkerAppears => s.(files := s.files.(cancelMarker := true))
    case MarkerRemoved => s.(files := s.files.(cancelMarker := false), history := s.history.(markerRemoved := true))
    case TargetExits(code) =>
      s.(tree := s.tree.(target := Dead(code)), history := s.history.(ownExit := Some(code)))
    case TargetDies => s.(tree := s.tree.(target := Dead(s.tree.target.exitCode)))
    case Forks(id) => if s.tree.inJob then s.(tree := s.tree.(family := s.tree.family + {id}))
      else s.(tree := s.tree.(strays := s.tree.strays + {id}))
    case DescendantExits(id) => s.(tree := s.tree.(family := s.tree.family - {id}, strays := s.tree.strays - {id}))
    case ReaderEnds(isStdout, failed) =>
      if isStdout then s.(held := s.held.(stdout := Finished(failed)))
        else s.(held := s.held.(stderr := Finished(failed)))
    case PidReused(later) => s.(pid := Stranger(later))
    case PidFreed => s.(pid := Nobody)
    case HandleOpened => s.(job := s.job.(others := s.job.others + 1))
    case HandleClosed =>
      var job := s.job.(others := s.job.others - 1);
      s.(job := job, tree := Settle(s.tree, job))
  }

  /** `labels` lead from `s` to `t`. */
  ghost predicate Runs(s: State, labels: seq<Label>, t: State)
    decreases |labels|
  {
    if labels == [] then s == t
    else Enabled(s, labels[0]) && Runs(Next(s, labels[0]), labels[1..], t)
  }

  // ------------------------------------------------------------- the invariant

  function Rank(pc: Pc): nat {
    match pc
    case VerifyRequest => 0 case CreateJob => 1 case ConfigureLimits => 2 case ConfigureCpu => 3
    case LauncherEvidence => 4 case AcquirePower => 5 case Prepare => 6 case CreateTarget => 7
    case AssignJob => 8 case CheckJob => 9 case StartEvidence => 10 case StartCapture => 11
    case CancelCheck => 12 case CancelBeforeResume => 13 case Resume => 14
    case Wait => 15 case PollCancel => 16 case KillCancelled => 17 case PollClock => 18 case KillTimedOut => 19
    case FinalWait => 20 case ReadExit => 21 case CloseJob => 22 case JoinCapture => 23
    case CheckCapture => 24 case ReleasePower => 25 case Publish => 26
    case Catch => 27 case FinallyPower => 28 case FinallyJob => 29 case Gone => 30
  }

  /** Execution presupposes the evidence, the Job and the resume. */
  predicate ExecutionIsOwned(s: State) {
    && s.tree.strays == {}
    && (s.tree.inJob ==> s.job.killOnClose)
    && (s.tree.everExecuted ==> s.files.startEvidence && s.tree.inJob && s.flags.resumed)
    && (SomebodyExecutes(s) ==> s.tree.everExecuted && (s.job.held || s.job.others > 0))
  }

  /** What holds at each statement of the try block, and on the way out. */
  predicate ProgressIsOrdered(s: State) {
    var r := Rank(s.pc);
    && (s.pc != Gone <==> s.pid == Launcher)
    && (s.pc == Gone ==> !s.job.held && !s.held.power)
    && (r <= 26 ==>
        && (s.job.held <==> 2 <= r <= 22)
        && (r >= 3 ==> s.job.killOnClose)
        && (r <= 7 ==> s.tree.target == Absent)
        && (r <= 8 ==> !s.tree.inJob)
        && (r >= 9 ==> s.tree.inJob)
        && (r >= 11 ==> s.files.startEvidence)
        && (r <= 14 ==> !s.flags.resumed)
        && (21 <= r ==> s.tree.target.Dead?)
        && (22 <= r ==> s.tree.target == Dead(s.flags.exitCode))
        && (r >= 24 ==> s.held.stdout.Finished? && s.held.stderr.Finished?)
        && (r >= 25 ==> s.held.stdout == Finished(false) && s.held.stderr == Finished(false))
        && (r == 26 ==> !s.held.power))
  }

  predicate FlagsAreHonest(s: State) {
    && (s.flags.cancelled ==> s.files.cancelMarker || s.history.markerRemoved)
    && (s.flags.cancelled && (s.flags.timedOut || s.pc == PollClock) ==> s.history.markerRemoved)
    && (s.flags.timedOut ==> Rank(s.pc) >= 19)
    && (Rank(s.pc) <= 12 || s.pc == Resume ==> !s.flags.cancelled)
  }

  predicate ResultIsFinal(s: State) {
    && (Rank(s.pc) <= 26 ==> s.history.published == 0)
    && s.history.published <= 1
    && (s.history.published == 1 ==>
        && Rank(s.pc) >= 28 && !s.job.held && !s.held.power && s.tree.target == Dead(s.flags.exitCode)
        && s.held.stdout == Finished(false) && s.held.stderr == Finished(false)
        && s.files.result == Some(ResultOf(s.flags.exitCode, s.flags.timedOut, s.flags.cancelled)))
  }

  /** Why the target has its exit code: it exited by itself, or the launcher killed it for a cancel or, failing
      that, for the deadline. */
  predicate IsExplained(s: State, code: int) {
    match s.history.ownExit
    case Some(own) => code == own
    case None =>
      if s.flags.cancelled then code == CANCELLED_EXIT else s.flags.timedOut && code == TIMED_OUT_EXIT
  }

  predicate CodeIsExplained(s: State) {
    (Rank(s.pc) <= 26 || s.history.published == 1) ==>
      && (s.tree.target.Dead? ==> IsExplained(s, s.tree.target.exitCode))
      && (!s.tree.target.Dead? ==> s.history.ownExit == None)
      && (s.tree.target.Dying? ==> IsExplained(s, s.tree.target.exitCode))
      && (s.flags.cancelled && s.pc != CancelBeforeResume && s.pc != KillCancelled ==>
            s.tree.target.Dying? || s.tree.target.Dead?)
      && (8 <= Rank(s.pc) <= 14 ==> s.tree.target == Suspended)
      && (15 <= Rank(s.pc) <= 26 ==> s.tree.target != Absent && s.tree.target != Suspended)
      && (s.pc == CancelBeforeResume || s.pc == KillCancelled ==> s.flags.cancelled)
      && (s.pc == KillTimedOut ==> s.flags.timedOut)
  }

  /** A target that was never resumed does not outlive an orderly end. */
  predicate SuspensionIsEnded(s: State) {
    && (s.tree.target == Suspended ==> !s.flags.resumed)
    && (Rank(s.pc) >= 28 && !s.history.crashed ==> s.tree.target != Suspended)
    && (s.history.crashed ==> s.pc == Gone)
  }

  predicate Inv(s: State) {
    && ExecutionIsOwned(s) && ProgressIsOrdered(s) && FlagsAreHonest(s) && ResultIsFinal(s)
    && CodeIsExplained(s) && SuspensionIsEnded(s)
  }

  lemma {:induction false} InitialInv(s: State)
    requires Initial(s)
    ensures Inv(s)
  {
  }

  lemma {:induction false} AdvancePreparing(s: State)
    requires Inv(s) && Rank(s.pc) <= 6 && CanAdvance(s)
    ensures Inv(AdvanceFrom(s))
  {
    match s.pc
    case VerifyRequest =>
    case CreateJob =>
    case ConfigureLimits =>
    case ConfigureCpu =>
    case LauncherEvidence =>
    case AcquirePower =>
    case Prepare =>
    case _ =>
  }

  lemma {:induction false} AdvanceCreating(s: State)
    requires Inv(s) && 7 <= Rank(s.pc) <= 11 && CanAdvance(s)
    ensures Inv(AdvanceFrom(s))
  {
    match s.pc
    case CreateTarget =>
    case AssignJob =>
    case CheckJob =>
    case StartEvidence =>
    case StartCapture =>
    case _ =>
  }

  lemma {:induction false} AdvanceBeforeResume(s: State)
    requires Inv(s) && 12 <= Rank(s.pc) <= 14 && CanAdvance(s)
    ensures Inv(AdvanceFrom(s))
  {
    match s.pc
    case CancelCheck =>
    case CancelBeforeResume =>
    case Resume =>
    case _ =>
  }

  lemma {:induction false} AdvanceWaiting(s: State)
    requires Inv(s) && 15 <= Rank(s.pc) <= 19 && CanAdvance(s)
    ensures Inv(AdvanceFrom(s))
  {
    match s.pc
    case Wait =>
    case PollCancel =>
    case KillCancelled =>
    case PollClock =>
    case KillTimedOut =>
    case _ =>
  }

  lemma {:induction false} AdvanceEnding(s: State)
    requires Inv(s) && 20 <= Rank(s.pc) <= 22 && CanAdvance(s)
    ensures Inv(AdvanceFrom(s))
  {
    match s.pc
    case FinalWait =>
    case ReadExit =>
    case CloseJob =>
    case _ =>
  }

  lemma {:induction false} AdvancePublishing(s: State)
    requires Inv(s) && 23 <= Rank(s.pc) <= 26 && CanAdvance(s)
    ensures Inv(AdvanceFrom(s))
  {
    match s.pc
    case JoinCapture =>
    case CheckCapture =>
    case ReleasePower =>
    case Publish =>
    case _ =>
  }

  lemma {:induction false} AdvanceLeaving(s: State)
    requires Inv(s) && (s.pc == Catch || s.pc == FinallyPower)
    ensures Inv(AdvanceFrom(s))
    ensures AdvanceFrom(s).files.result == s.files.result && AdvanceFrom(s).history.published == s.history.published
  {
    match s.pc
    case Catch =>
    case _ =>
  }

  lemma {:induction false} VanishKeepsInv(s: State)
    requires Inv(s) && s.pc != Gone
    ensures Inv(Vanish(s).(history := s.history.(crashed := true)))
    ensures Rank(s.pc) >= 28 ==> Inv(Vanish(s))
    ensures Vanish(s).files.result == s.files.result && Vanish(s).history.published == s.history.published
  {
  }

  lemma {:induction false} DetourKeepsInv(s: State, l: Label)
    requires Inv(s) && Enabled(s, l) && (l.TimesOut? || l.Expires? || l.Throw?)
    ensures Inv(Next(s, l))
    ensures s.history.published == 1 ==> Next(s, l).files.result == s.files.result && Next(s, l).history.published == 1
  {
    match l
    case TimesOut =>
    case Expires =>
    case Throw =>
    case _ =>
  }

  lemma {:induction false} ProcessesKeepInv(s: State, l: Label)
    requires Inv(s) && Enabled(s, l) && (l.TargetExits? || l.TargetDies? || l.Forks? || l.DescendantExits?)
    ensures Inv(Next(s, l))
    ensures s.history.published == 1 ==> Next(s, l).files.result == s.files.result && Next(s, l).history.published == 1
  {
    match l
    case TargetExits(_) =>
    case TargetDies =>
    case Forks(_) =>
    case DescendantExits(_) =>
    case _ =>
  }

  lemma {:induction false} SurroundingsKeepInv(s: State, l: Label)
    requires Inv(s) && Enabled(s, l)
      && (l.MarkerAppears? || l.MarkerRemoved? || l.ReaderEnds? || l.PidReused? || l.PidFreed?)
    ensures Inv(Next(s, l))
    ensures s.history.published == 1 ==> Next(s, l).files.result == s.files.result && Next(s, l).history.published == 1
  {
    match l
    case MarkerAppears =>
    case MarkerRemoved =>
    case ReaderEnds(_, _) =>
    case PidReused(_) =>
    case PidFreed =>
    case _ =>
  }

  lemma {:induction false} HandlesKeepInv(s: State, l: Label)
    requires Inv(s) && Enabled(s, l) && (l.HandleOpened? || l.HandleClosed?)
    ensures Inv(Next(s, l))
    ensures s.history.published == 1 ==> Next(s, l).files.result == s.files.result && Next(s, l).history.published == 1
  {
    match l
    case HandleOpened =>
    case HandleClosed =>
    case _ =>
  }

  lemma {:induction false} NextKeepsInv(s: State, l: Label)
    requires Inv(s) && Enabled(s, l)
    ensures Inv(Next(s, l))
    ensures s.history.published == 1 ==> Next(s, l).files.result == s.files.result && Next(s, l).history.published == 1
  {
    match l
    case Advance =>
      if Rank(s.pc) <= 6 {
        AdvancePreparing(s);
      } else if Rank(s.pc) <= 11 {
        AdvanceCreating(s);
      } else if Rank(s.pc) <= 14 {
        AdvanceBeforeResume(s);
      } else if Rank(s.pc) <= 19 {
        AdvanceWaiting(s);
      } else if Rank(s.pc) <= 22 {
        AdvanceEnding(s);
      } else if Rank(s.pc) <= 26 {
        AdvancePublishing(s);
      } else if s.pc == FinallyJob {
        VanishKeepsInv(s);
      } else {
        AdvanceLeaving(s);
      }
    case TimesOut => DetourKeepsInv(s, l);
    case Expires => DetourKeepsInv(s, l);
    case Throw => DetourKeepsInv(s, l);
    case Crash => VanishKeepsInv(s);
    case TargetExits(_) => ProcessesKeepInv(s, l);
    case TargetDies => ProcessesKeepInv(s, l);
    case Forks(_) => ProcessesKeepInv(s, l);
    case DescendantExits(_) => ProcessesKeepInv(s, l);
    case HandleOpened => HandlesKeepInv(s, l);
    case HandleClosed => HandlesKeepInv(s, l);
    case _ => SurroundingsKeepInv(s, l);
  }

  lemma {:induction false} RunKeepsInv(s: State, labels: seq<Label>, t: State)
    requires Inv(s) && Runs(s, labels, t)
    ensures Inv(t)
    ensures s.history.published == 1 ==> t.files.result == s.files.result && t.history.published == 1
    decreases |labels|
  {
    if labels != [] {
      NextKeepsInv(s, labels[0]);
      RunKeepsInv(Next(s, labels[0]), labels[1..], t);
    }
  }

  // -------------------------------------------------------------- main results

  /** What an observer of the launcher's process number sees; the launcher was created
      at `born`, and whoever gets its number later was created later. */
  function Observed(s: State, born: nat): Supervisor.LauncherObservation {
    match s.pid
    case Launcher => Supervisor.LauncherObservation(true, Some(born))
    case Nobody => Supervisor.LauncherObservation(false, None)
    case Stranger(later) => Supervisor.LauncherObservation(true, Some(born + 1 + later))
  }

  /** In every reachable state: a target that has executed is in the kill-on-close Job and
      its start evidence is published; the verdict is running exactly while the launcher
      itself lives; and a terminal or orphaned verdict leaves nothing executing, unless
      some other process holds a handle to the Job. */
  lemma {:induction false} VerdictIsSound(
    start: State, labels: seq<Label>, s: State, owner: Supervisor.LauncherOwner, intent: TerminationIntent)
    requires Initial(start) && Runs(start, labels, s) && Supervisor.CompleteOwner(owner)
    ensures s.tree.everExecuted ==> s.tree.inJob && s.job.killOnClose && s.files.startEvidence
    ensures var verdict := Supervisor.ClassifyWindowsLauncher(owner, Observed(s, owner.creationTime), intent);
            && verdict.Ok?
            && (verdict.value == Supervisor.StillRunning <==> s.pc != Gone)
            && (verdict.value.Terminal? || verdict.value.OrphanedBy? ==> s.job.others > 0 || !SomebodyExecutes(s))
  {
    InitialInv(start);
    RunKeepsInv(start, labels, s);
  }

  /** The exact condition, for every launcher that ends while its tree executes, however it ends: the verdict
      is then no longer running, and it is right if and only if nobody else holds a handle to the Job. */
  lemma {:induction false} ExitVerdictIsRightExactlyWhen(
    start: State, labels: seq<Label>, s: State, owner: Supervisor.LauncherOwner, intent: TerminationIntent)
    requires Initial(start) && Runs(start, labels, s) && Supervisor.CompleteOwner(owner)
    requires s.pc != Gone && SomebodyExecutes(s)
    ensures Enabled(s, Crash) && Next(s, Crash).(history := s.history) == Vanish(s)
    ensures s.pc == FinallyJob ==> Next(s, Advance) == Vanish(s)
    ensures var verdict := Supervisor.ClassifyWindowsLauncher(owner, Observed(Vanish(s), owner.creationTime), intent);
            verdict.Ok? && verdict.value.Terminal?
    ensures !SomebodyExecutes(Vanish(s)) <==> s.job.others == 0
  {
    InitialInv(start);
    RunKeepsInv(start, labels, s);
  }

  /** A tree that outlives its launcher ends with the last handle, and with no earlier one. */
  lemma {:induction false} LastHandleEndsTheTree(start: State, labels: seq<Label>, s: State)
    requires Initial(start) && Runs(start, labels, s) && s.pc == Gone && SomebodyExecutes(s)
    ensures Enabled(s, HandleClosed) && (!SomebodyExecutes(Next(s, HandleClosed)) <==> s.job.others == 1)
  {
    InitialInv(start);
    RunKeepsInv(start, labels, s);
  }

  /** Once that is so, it stays so: the Job is gone and nothing can be revived. */
  lemma {:induction false} GoneStaysGone(s: State, labels: seq<Label>, t: State)
    requires Inv(s) && Runs(s, labels, t) && s.pc == Gone && s.job.others == 0
    ensures t.pc == Gone && t.job.others == 0 && !SomebodyExecutes(t)
    decreases |labels|
  {
    if labels != [] {
      NextKeepsInv(s, labels[0]);
      StillGone(s, labels[0]);
      GoneStaysGone(Next(s, labels[0]), labels[1..], t);
    }
  }

  lemma {:induction false} StillGone(s: State, l: Label)
    requires Inv(s) && Enabled(s, l) && s.pc == Gone && s.job.others == 0
    ensures Next(s, l).pc == Gone && Next(s, l).job.others == 0
  {
    match l
    case Advance =>
    case _ =>
  }

  /** The result is published at most once, as the flags say, and only when the Job handle
      is closed, the target is dead, both captures ended without error and the power
      request is released; from then on it never changes. */
  lemma {:induction false} ResultIsPublishedOnce(start: State, labels: seq<Label>, s: State, more: seq<Label>, t: State)
    requires Initial(start) && Runs(start, labels, s) && Runs(s, more, t)
    ensures s.history.published <= 1
    ensures s.history.published == 1 ==>
              && !s.job.held && !s.held.power && s.tree.target.Dead?
              && s.held.stdout == Finished(false) && s.held.stderr == Finished(false)
              && s.files.result == Some(ResultOf(s.flags.exitCode, s.flags.timedOut, s.flags.cancelled))
              && t.files.result == s.files.result && t.history.published == 1
    ensures s.history.published == 1 && s.job.others == 0 ==> !SomebodyExecutes(s)
  {
    InitialInv(start);
    RunKeepsInv(start, labels, s);
    RunKeepsInv(s, more, t);
  }

  /** A marker in place before the resume check, and not taken away, keeps the target
      from ever executing, whatever else happens. */
  lemma {:induction false} EarlyCancelPreventsExecution(
    start: State, labels: seq<Label>, s: State, more: seq<Label>, t: State)
    requires Initial(start) && Runs(start, labels, s) && Runs(s, more, t)
    requires s.files.cancelMarker && Rank(s.pc) <= 12 && MarkerRemoved !in more
    ensures !t.tree.everExecuted && !SomebodyExecutes(t)
  {
    InitialInv(start);
    RunKeepsInv(start, labels, s);
    StaysUnexecuted(s, more, t);
  }

  predicate Unexecuted(s: State) {
    && !s.tree.everExecuted && !s.flags.resumed && s.files.cancelMarker
    && (Rank(s.pc) <= 12 || (s.flags.cancelled && s.pc != Resume) || Rank(s.pc) >= 27)
  }

  lemma {:induction false} StaysUnexecuted(s: State, labels: seq<Label>, t: State)
    requires Inv(s) && Unexecuted(s) && Runs(s, labels, t) && MarkerRemoved !in labels
    ensures Unexecuted(t) && Inv(t)
    decreases |labels|
  {
    if labels != [] {
      NextKeepsInv(s, labels[0]);
      StillUnexecuted(s, labels[0]);
      StaysUnexecuted(Next(s, labels[0]), labels[1..], t);
    }
  }

  lemma {:induction false} StillUnexecuted(s: State, l: Label)
    requires Inv(s) && Unexecuted(s) && Enabled(s, l) && l != MarkerRemoved
    ensures Unexecuted(Next(s, l))
  {
    match l
    case Advance =>
    case _ =>
  }

  /** Cancelled and timed out are both set only if somebody took the marker away. */
  lemma {:induction false} OutcomeIsUnambiguous(start: State, labels: seq<Label>, s: State)
    requires Initial(start) && Runs(start, labels, s)
    ensures s.flags.cancelled && s.flags.timedOut ==> s.history.markerRemoved
  {
    InitialInv(start);
    RunKeepsInv(start, labels, s);
  }

  /** The exit code that the launcher reports, from the moment it has read it, is the code with which the target
      died; and that is what result.json says. */
  lemma {:induction false} ReportedCodeIsTheTargets(start: State, labels: seq<Label>, s: State)
    requires Initial(start) && Runs(start, labels, s)
    ensures 22 <= Rank(s.pc) <= 26 || s.history.published == 1 ==> s.tree.target == Dead(s.flags.exitCode)
    ensures s.history.published == 1 ==>
      s.files.result.Some? && s.tree.target == Dead(s.files.result.value.exitCode)
  {
    InitialInv(start);
    RunKeepsInv(start, labels, s);
  }

  /** Where the reported code comes from, over every run: from the target itself if it exited, and else from the
      launcher, which killed it because it was cancelled or out of time. */
  lemma {:induction false} ReportedCodeIsExplained(start: State, labels: seq<Label>, s: State)
    requires Initial(start) && Runs(start, labels, s) && s.history.published == 1
    ensures s.files.result.Some?
    ensures s.files.result.value.exitCode ==
      match s.history.ownExit
      case Some(own) => own
      case None => if s.flags.cancelled then CANCELLED_EXIT else TIMED_OUT_EXIT
    ensures s.history.ownExit == None ==> s.flags.cancelled || s.flags.timedOut
  {
    InitialInv(start);
    RunKeepsInv(start, labels, s);
  }

  /** A launcher that ends without a crash leaves no target suspended. */
  lemma {:induction false} NothingIsLeftSuspended(start: State, labels: seq<Label>, s: State)
    requires Initial(start) && Runs(start, labels, s) && s.pc == Gone && !s.history.crashed
    ensures s.tree.target != Suspended
  {
    InitialInv(start);
    RunKeepsInv(start, labels, s);
  }

  /** The Attempt state that the Runtime derives from a published result is what happened: whether the launcher
      cancelled the target or found it out of time, and else the code with which the target died. */
  lemma {:induction false} DerivedStateMatchesOutcome(
    start: State, labels: seq<Label>, s: State, current: Evidence.Subject, result: Evidence.RunnerResult)
    requires Initial(start) && Runs(start, labels, s) && s.history.published == 1
    requires result.exitCode.Some? && result.infrastructureErrorCode == None
    requires s.files.result == Some(Outcome(result.status, result.exitCode.value, result.timedOut))
    ensures s.tree.target.Dead? && result.exitCode == Some(s.tree.target.exitCode)
    ensures Evidence.StateAndReason(current, result).0
         == if s.flags.cancelled then Cancelled
            else if s.flags.timedOut then TimedOut
            else if s.tree.target.exitCode == 0 then Succeeded else Failed
  {
    ReportedCodeIsTheTargets(start, labels, s);
    PublishedResult(start, labels, s);
    OutcomeIsDerived(current, result, s.flags.timedOut, s.flags.cancelled);
  }

  lemma {:induction false} PublishedResult(start: State, labels: seq<Label>, s: State)
    requires Initial(start) && Runs(start, labels, s) && s.history.published == 1
    ensures s.files.result == Some(ResultOf(s.flags.exitCode, s.flags.timedOut, s.flags.cancelled))
  {
    InitialInv(start);
    RunKeepsInv(start, labels, s);
  }

  lemma {:induction false} OutcomeIsDerived(
    current: Evidence.Subject, result: Evidence.RunnerResult, timedOut: bool, cancelled: bool)
    requires result.exitCode.Some? && result.infrastructureErrorCode == None
    requires Outcome(result.status, result.exitCode.value, result.timedOut)
          == ResultOf(result.exitCode.value, timedOut, cancelled)
    ensures Evidence.StateAndReason(current, result).0
         == if cancelled then Cancelled
            else if timedOut then TimedOut
            else if result.exitCode.value == 0 then Succeeded else Failed
  {
  }

  /** The whole Windows verdict, for every state a run can reach: running while the launcher lives; orphaned when
      another process has its number; and else ended, as a stop or a deadline was asked for, or failed. Without a
      result nothing is ever called succeeded. */
  lemma {:induction false} VerdictNamesTheOutcome(
    start: State, labels: seq<Label>, s: State, owner: Supervisor.LauncherOwner, intent: TerminationIntent)
    requires Initial(start) && Runs(start, labels, s) && Supervisor.CompleteOwner(owner)
    ensures var verdict := Supervisor.ClassifyWindowsLauncher(owner, Observed(s, owner.creationTime), intent);
      && verdict.Ok?
      && (verdict.value.StillRunning? <==> s.pc != Gone)
      && (verdict.value.OrphanedBy? <==> s.pid.Stranger?)
      && (verdict.value.Terminal? <==> s.pid == Nobody)
      && verdict.value != Supervisor.Terminal(Succeeded)
      && (verdict.value == Supervisor.Terminal(Cancelled) <==> s.pid == Nobody && intent == StopRequested)
      && (verdict.value == Supervisor.Terminal(TimedOut) <==> s.pid == Nobody && intent == DeadlineExceeded)
      && (verdict.value == Supervisor.Terminal(Failed) <==> s.pid == Nobody && intent == Natural)
  {
    InitialInv(start);
    RunKeepsInv(start, labels, s);
  }

  // ------------------------------------------------------- what can go wrong

  ghost predicate Reachable(s: State) {
    exists start, labels :: Initial(start) && Runs(start, labels, s)
  }

  lemma {:induction false} RunsThenNext(start: State, labels: seq<Label>, s: State, l: Label)
    requires Runs(start, labels, s) && Enabled(s, l)
    ensures Runs(start, labels + [l], Next(s, l))
    decreases |labels|
  {
    if labels == [] {
      assert labels + [l] == [l] && [l][1..] == [];
    } else {
      RunsThenNext(Next(start, labels[0]), labels[1..], s, l);
      assert (labels + [l])[1..] == labels[1..] + [l];
    }
  }

  lemma {:induction false} ReachNext(s: State, l: Label)
    requires Reachable(s) && Enabled(s, l)
    ensures Reachable(Next(s, l))
  {
    var start, labels :| Initial(start) && Runs(start, labels, s);
    RunsThenNext(start, labels, s, l);
  }

  /** The launcher with its Job created and nothing started yet. */
  function AtLimits(): State {
    State(ConfigureLimits, Launcher, Job(true, 0, false), Tree(Absent, false, {}, {}, false),
          Files(false, false, None), Resources(Idle, Idle, false), Locals(false, false, false, 0),
          History(false, 0, false, None))
  }

  lemma {:induction false} ReachLimits()
    ensures Reachable(AtLimits())
  {
    var start := AtLimits().(pc := VerifyRequest, job := Job(false, 0, false));
    assert Runs(start, [], start);
    ReachNext(start, Advance);
    ReachNext(start.(pc := CreateJob), Advance);
  }

  /** From there, undisturbed, to the cancel check. */
  function AtCheck(job: Job): State {
    AtLimits().(pc := CancelCheck, job := job.(killOnClose := true), tree := Tree(Suspended, true, {}, {}, false),
                files := Files(true, false, None), held := Resources(Reading, Reading, true))
  }

  lemma {:induction false} ReachPrepare(job: Job) returns (s: State)
    requires Reachable(AtLimits().(job := job)) && job.held
    ensures s == AtLimits().(pc := CreateTarget, job := job.(killOnClose := true), held := Resources(Idle, Idle, true))
    ensures Reachable(s)
  {
    s := AtLimits().(job := job);
    ReachNext(s, Advance); s := Next(s, Advance);
    ReachNext(s, Advance); s := Next(s, Advance);
    ReachNext(s, Advance); s := Next(s, Advance);
    ReachNext(s, Advance); s := Next(s, Advance);
    ReachNext(s, Advance); s := Next(s, Advance);
  }

  lemma {:induction false} ReachCheck(job: Job)
    requires Reachable(AtLimits().(job := job)) && job.held
    ensures Reachable(AtCheck(job))
  {
    var s := ReachPrepare(job);
    ReachNext(s, Advance); s := Next(s, Advance);
    ReachNext(s, Advance); s := Next(s, Advance);
    ReachNext(s, Advance); s := Next(s, Advance);
    ReachNext(s, Advance); s := Next(s, Advance);
    ReachNext(s, Advance); s := Next(s, Advance);
  }

  lemma {:induction false} ReachSecondHandle()
    ensures Reachable(AtCheck(Job(true, 1, true)))
  {
    ReachLimits();
    ReachNext(AtLimits(), HandleOpened);
    assert Next(AtLimits(), HandleOpened) == AtLimits().(job := Job(true, 1, false));
    ReachCheck(Job(true, 1, false));
  }

  /** Nothing checks that the named Job was new: with a second handle open, the launcher's
      death leaves the tree executing under a terminal verdict. */
  lemma {:induction false} SecondHandleDefeatsTheVerdict(
    owner: Supervisor.LauncherOwner, intent: TerminationIntent) returns (s: State)
    requires Supervisor.CompleteOwner(owner)
    ensures Reachable(s) && s.job.others == 1 && SomebodyExecutes(s)
    ensures var verdict := Supervisor.ClassifyWindowsLauncher(owner, Observed(s, owner.creationTime), intent);
            verdict.Ok? && verdict.value.Terminal?
  {
    s := ReachSecondExecuting();
    ReachNext(s, Crash); s := Next(s, Crash);
  }

  lemma {:induction false} ReachSecondExecuting() returns (s: State)
    ensures Reachable(s) && s.pc == Wait && s.tree.target == Executing && s.job == Job(true, 1, true)
  {
    ReachSecondHandle();
    s := AtCheck(Job(true, 1, true));
    ReachNext(s, Advance); s := Next(s, Advance);
    ReachNext(s, Advance); s := Next(s, Advance);
  }

  /** Publication is reached: for every exit code of the target there is a run, undisturbed, that publishes it. */
  lemma {:induction false} EveryCodeIsPublished(code: int) returns (s: State)
    ensures Reachable(s) && s.history.published == 1 && s.files.result == Some(ResultOf(code, false, false))
  {
    s := ReachReadersEnded(code);
    ReachNext(s, Advance); s := Next(s, Advance);
    ReachNext(s, Advance); s := Next(s, Advance);
    ReachNext(s, Advance); s := Next(s, Advance);
    ReachNext(s, Advance); s := Next(s, Advance);
  }

  lemma {:induction false} ReachReadersEnded(code: int) returns (s: State)
    ensures Reachable(s) && s.pc == JoinCapture && s.flags == Locals(true, false, false, code)
    ensures s.held == Resources(Finished(false), Finished(false), true)
    ensures s.files.result == None && s.history.published == 0
  {
    s := ReachExit(code);
    ReachNext(s, Advance); s := Next(s, Advance);
    ReachNext(s, ReaderEnds(true, false)); s := Next(s, ReaderEnds(true, false));
    ReachNext(s, ReaderEnds(false, false)); s := Next(s, ReaderEnds(false, false));
  }

  lemma {:induction false} ReachExit(code: int) returns (s: State)
    ensures Reachable(s) && s.pc == CloseJob && s.flags == Locals(true, false, false, code)
    ensures s.tree.target == Dead(code)
    ensures s.held == Resources(Reading, Reading, true) && s.files.result == None && s.history.published == 0
  {
    ReachLimits();
    ReachCheck(AtLimits().job);
    s := AtCheck(AtLimits().job);
    ReachNext(s, Advance); s := Next(s, Advance);
    ReachNext(s, Advance); s := Next(s, Advance);
    ReachNext(s, TargetExits(code)); s := Next(s, TargetExits(code));
    ReachNext(s, Advance); s := Next(s, Advance);
    ReachNext(s, Advance); s := Next(s, Advance);
    ReachNext(s, Advance); s := Next(s, Advance);
  }

  lemma {:induction false} ReachMarker() returns (s: State)
    ensures Reachable(s) && s == AtCheck(AtLimits().job).(files := Files(true, true, None))
  {
    ReachLimits();
    ReachCheck(AtLimits().job);
    s := AtCheck(AtLimits().job);
    ReachNext(s, MarkerAppears); s := Next(s, MarkerAppears);
  }

  lemma {:induction false} ReachHonouredMarker() returns (s: State)
    ensures Reachable(s) && s.pc == Wait && s.tree.target.Dying? && s.flags.cancelled && s.files.cancelMarker
  {
    s := ReachMarker();
    ReachNext(s, Advance); s := Next(s, Advance);
    ReachNext(s, Advance); s := Next(s, Advance);
  }

  /** The deadline can no longer be noticed. */
  predicate PastTheClock(s: State) {
    !s.flags.timedOut && (Rank(s.pc) >= 20 || (s.pc == Wait && s.tree.target.Dead?))
  }

  lemma {:induction false} ClockStaysPast(s: State, labels: seq<Label>, t: State)
    requires PastTheClock(s) && Runs(s, labels, t)
    ensures PastTheClock(t)
    decreases |labels|
  {
    if labels != [] {
      ClockStepsPast(s, labels[0]);
      ClockStaysPast(Next(s, labels[0]), labels[1..], t);
    }
  }

  lemma {:induction false} ClockStepsPast(s: State, l: Label)
    requires PastTheClock(s) && Enabled(s, l)
    ensures PastTheClock(Next(s, l))
  {
    match l
    case Advance =>
    case _ =>
  }

  ghost predicate MayEndAmbiguous(s: State) {
    exists labels, t :: Runs(s, labels, t) && t.flags.cancelled && t.flags.timedOut
  }

  lemma {:induction false} ReachableIsInv(s: State)
    requires Reachable(s)
    ensures Inv(s)
  {
    var start, before :| Initial(start) && Runs(start, before, s);
    InitialInv(start);
    RunKeepsInv(start, before, s);
  }

  /** Termination is not instantaneous: from a cancelled launcher at its wait, a run to both flags exists if
      and only if the target is not dead yet. It takes a marker that is removed after it was honoured. */
  lemma {:induction false} AmbiguityIsReachedExactlyWhen(s: State)
    requires Reachable(s) && s.pc == Wait && s.flags.cancelled
    ensures MayEndAmbiguous(s) <==> !s.tree.target.Dead?
  {
    ReachableIsInv(s);
    if s.tree.target.Dead? {
      if MayEndAmbiguous(s) {
        var labels, t :| Runs(s, labels, t) && t.flags.cancelled && t.flags.timedOut;
        ClockStaysPast(s, labels, t);
      }
    } else {
      var labels, t := RunToBothFlags(s);
    }
  }

  lemma {:induction false} RunToBothFlags(s: State) returns (labels: seq<Label>, t: State)
    requires s.pc == Wait && s.flags.cancelled && !s.tree.target.Dead?
    ensures Runs(s, labels, t) && t.flags.cancelled && t.flags.timedOut
  {
    labels, t := [], s;
    RunsThenNext(s, labels, t, TimesOut);
    labels, t := labels + [TimesOut], Next(t, TimesOut);
    if t.files.cancelMarker {
      RunsThenNext(s, labels, t, MarkerRemoved);
      labels, t := labels + [MarkerRemoved], Next(t, MarkerRemoved);
    }
    RunsThenNext(s, labels, t, Advance);
    labels, t := labels + [Advance], Next(t, Advance);
    RunsThenNext(s, labels, t, Expires);
    labels, t := labels + [Expires], Next(t, Expires);
  }

  /** A run in which the deadline sets the second flag. */
  lemma {:induction false} RemovedMarkerMakesOutcomeAmbiguous() returns (s: State)
    ensures Reachable(s) && s.flags.cancelled && s.flags.timedOut
  {
    s := ReachHonouredMarker();
    ReachNext(s, TimesOut); s := Next(s, TimesOut);
    ReachNext(s, MarkerRemoved); s := Next(s, MarkerRemoved);
    ReachNext(s, Advance); s := Next(s, Advance);
    ReachNext(s, Expires); s := Next(s, Expires);
  }
}
