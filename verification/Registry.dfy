/** The Registry's tables and the administrative transactions that rewrite them. */
module Registry {
  import opened Types
  import opened EventLog
  import Evidence
  import EnvFile

  // ----- Tables -----

  datatype Resolution = ToSucceeded | ToFailed | ToTimedOut | ToCancelled | ToLost | ToOrphaned

  datatype Job = Job(resolution: Option<Resolution>, current: Option<string>, rowVersion: nat)

  /** The columns that record how an Attempt ended. */
  datatype Outcome = Outcome(
    resultDigest: Option<string>, exitCode: Option<int>, infrastructureErrorDigest: Option<string>,
      finishedAtMs: Option<nat>)

  /** The recovery columns, which the schema keeps all null or all present. */
  datatype Recovery = Recovery(required: bool, reasonCode: string, evidenceDigest: string, observedAtMs: nat)

  datatype Attempt = Attempt(
    jobId: string, number: nat, launchTokenDigest: string, intent: TerminationIntent,
    state: AttemptState, outcome: Outcome, recovery: Option<Recovery>, rowVersion: nat)

  datatype ReservationState = Active | HeldOrphaned | Released

  datatype Reservation = Reservation(
    state: ReservationState, releasedAtMs: Option<nat>, reason: Option<string>, observedAtMs: nat)

  datatype Artifact = Artifact(jobId: string, attemptId: string, registration: Evidence.Registration, createdAtMs: nat)

  type Artifacts = map<string, Artifact>

  datatype Tables = Tables(
    jobs: map<string, Job>, attempts: map<string, Attempt>, reservations: map<string, Reservation>,
    events: seq<Event>, artifacts: Artifacts)

  datatype Error = InvalidRequest | JobNotFound | AttemptNotFound | ReservationStateConflict
    | OrphanRemediationDenied | ReconciliationRequired | ArtifactIdentityConflict | AbortedByTrigger

  datatype Answer<+T> = Done(value: T) | Refused(error: Error) {
    predicate IsFailure() { Refused? }
    function PropagateFailure<U>(): Answer<U> requires Refused? { Refused(error) }
    function Extract(): T requires Done? { value }
  }

  function Need(condition: bool, error: Error): Answer<()> {
    if condition then Done(()) else Refused(error)
  }

  function Load<V>(table: map<string, V>, key: string, missing: Error): Answer<V> {
    if key in table then Done(table[key]) else Refused(missing)
  }

  // ----- What an operator asks for -----

  datatype Audit = Audit(
    caseFingerprint: string, observedAtMs: nat,
    expectedJobRowVersion: nat, expectedCurrent: Option<string>, expectedReservation: ReservationState)

  datatype Operation =
    | Terminal(request: Evidence.TerminalCommit, audit: Audit)
    | Reserve(attemptId: string, expectedRowVersion: nat, audit: Audit)
    | Converge(convergedId: string, observedAtMs: nat)

  /** What an administrative batch may hold: not the unattended convergence. */
  type AdminOperation = o: Operation | !o.Converge? witness Reserve("", 0, Audit("", 0, 0, None, Released))

  predicate IsControl(c: char) {
    c < ' ' || '\U{7F}' <= c <= '\U{9F}'
  }

  function Utf8Width(c: char): nat {
    if c < '\U{80}' then 1 else if c < '\U{800}' then 2 else if c < '\U{10000}' then 3 else 4
  }

  function Utf8Length(value: string): nat {
    if value == [] then 0 else Utf8Width(value[0]) + Utf8Length(value[1..])
  }

  predicate IsIdentifier(value: string) {
    && (exists i :: 0 <= i < |value| && !EnvFile.IsSpace(value[i]))
    && Utf8Length(value) <= 256
    && forall i :: 0 <= i < |value| ==> !IsControl(value[i])
  }

  /** Some '/'-separated segment of the path is "..". */
  predicate HasParentSegment(path: string) {
    exists i :: 0 <= i <= |path| - 2 && path[i] == '.' && path[i + 1] == '.'
      && (i == 0 || path[i - 1] == '/') && (i + 2 == |path| || path[i + 2] == '/')
  }

  predicate IsRegistrable(artifact: Evidence.Registration) {
    && IsIdentifier(artifact.artifactId)
    && IsIdentifier(artifact.kind)
    && IsSha256Digest(artifact.digest)
    && artifact.relativePath != "" && artifact.relativePath[0] != '/'
    && !HasParentSegment(artifact.relativePath)
  }

  predicate IsWellFormed(request: Evidence.TerminalCommit) {
    && IsSha256Digest(request.resultDigest)
    && forall i :: 0 <= i < |request.artifacts| ==> IsRegistrable(request.artifacts[i])
  }

  // ----- Building blocks -----

  function ResolutionFor(state: AttemptState): Option<Resolution> {
    match state
    case Succeeded => Some(ToSucceeded)
    case Failed => Some(ToFailed)
    case TimedOut => Some(ToTimedOut)
    case Cancelled => Some(ToCancelled)
    case Lost => Some(ToLost)
    case Orphaned => Some(ToOrphaned)
    case _ => None
  }

  /** The state changes that the trigger attempts_terminal_no_reopen lets through. */
  predicate StateMayBecome(old_: AttemptState, new_: AttemptState) {
    || !IsTerminal(old_) || old_ == new_
    || ((old_ == Lost || old_ == Orphaned) && IsRunnerTerminal(new_))
    || (old_ == Orphaned && new_ == Lost)
  }

  /** The resolution changes that the trigger jobs_resolution_immutable lets through. */
  predicate ResolutionMayBecome(old_: Option<Resolution>, new_: Option<Resolution>) {
    || old_ == None || old_ == new_
    || ((old_ == Some(ToLost) || old_ == Some(ToOrphaned))
        && new_.Some? && new_ != Some(ToLost) && new_ != Some(ToOrphaned))
    || (old_ == Some(ToOrphaned) && new_ == Some(ToLost))
  }

  function FreedReservation(reservation: Reservation, at: nat, reason: string): Reservation {
    if reservation.state == Released then reservation else Reservation(Released, Some(at), Some(reason), at)
  }

  function Release(
    reservations: map<string, Reservation>, attemptId: string, at: nat, reason: string
  ): Answer<map<string, Reservation>>
  {
    if attemptId !in reservations then Refused(ReservationStateConflict)
    else Done(reservations[attemptId := FreedReservation(reservations[attemptId], at, reason)])
  }

  function Hold(
    reservations: map<string, Reservation>, attemptId: string, at: nat, reason: string
  ): Answer<map<string, Reservation>>
  {
    if attemptId !in reservations || reservations[attemptId].state == Released then Refused(ReservationStateConflict)
    else Done(reservations[attemptId := Reservation(HeldOrphaned, None, Some(reason), at)])
  }

  /** The Attempts that take up a slot. */
  function Occupied(reservations: map<string, Reservation>): set<string> {
    set a | a in reservations && reservations[a].state != Released
  }

  predicate Collides(artifacts: Artifacts, attemptId: string, entry: Evidence.Registration) {
    || entry.artifactId in artifacts
    || exists id :: id in artifacts && artifacts[id].attemptId == attemptId
         && artifacts[id].registration.kind == entry.kind
         && artifacts[id].registration.relativePath == entry.relativePath
  }

  function Register(
    artifacts: Artifacts, jobId: string, attemptId: string, entries: seq<Evidence.Registration>, at: nat
  ): Answer<Artifacts>
    decreases |entries|
  {
    if entries == [] then Done(artifacts)
    else if Collides(artifacts, attemptId, entries[0]) then Refused(ArtifactIdentityConflict)
    else Register(artifacts[entries[0].artifactId := Artifact(jobId, attemptId, entries[0], at)], jobId, attemptId,
      entries[1..], at)
  }

  // ----- The transactions -----

  predicate RepairAllowed(from: AttemptState, to: AttemptState) {
    ((from == Lost || from == Orphaned) && IsRunnerTerminal(to)) || (from == Lost && to == Lost)
  }

  /** Nothing the plan was based on has changed since. */
  predicate PlanIsCurrent(attempt: Attempt, job: Job, reservation: Reservation, expectedRowVersion: nat, audit: Audit) {
    && attempt.rowVersion == expectedRowVersion
    && job.rowVersion == audit.expectedJobRowVersion
    && job.current == audit.expectedCurrent
    && reservation.state == audit.expectedReservation
  }

  function OutcomeOf(request: Evidence.TerminalCommit): Outcome {
    Outcome(Some(request.resultDigest), request.exitCode, request.infrastructureErrorDigest, Some(request.finishedAtMs))
  }

  /** The Attempt row after a terminal repair. */
  function RepairedAttempt(attempt: Attempt, request: Evidence.TerminalCommit, audit: Audit): Attempt {
    attempt.(state := request.state, outcome := OutcomeOf(request), rowVersion := attempt.rowVersion + 1,
             recovery := Some(Recovery(false, "ADMIN_REPAIR_COMPLETED", audit.caseFingerprint, audit.observedAtMs)))
  }

  function RepairedJob(job: Job, state: AttemptState): Job {
    Job(ResolutionFor(state), None, job.rowVersion + 1)
  }

  function RepairEvents(
    events: seq<Event>, attempt: Attempt, request: Evidence.TerminalCommit, audit: Audit): seq<Event>
  {
    var first := Event(attempt.jobId, request.attemptId, 0, "ADMIN_TERMINAL_REPAIR",
                       attempt.state, request.state, request.reasonCode, audit.observedAtMs);
    WithEvent(WithEvent(events, first), first.(eventType := "JOB_RESOLUTION_ADMIN_CORRECTED"))
  }

  /** The reads and tests that a terminal repair starts with. */
  function CheckTerminal(t: Tables, request: Evidence.TerminalCommit, audit: Audit): Answer<(Attempt, Job)> {
    var _ :- Need(IsWellFormed(request), InvalidRequest);
    var attempt :- Load(t.attempts, request.attemptId, AttemptNotFound);
    var job :- Load(t.jobs, attempt.jobId, JobNotFound);
    var reservation :- Load(t.reservations, request.attemptId, ReservationStateConflict);
    var _ :- Need(RepairAllowed(attempt.state, request.state), OrphanRemediationDenied);
    var _ :- Need(PlanIsCurrent(attempt, job, reservation, request.expectedRowVersion, audit)
                  && job.resolution == ResolutionFor(attempt.state), ReconciliationRequired);
    Done((attempt, job))
  }

  /** The writes of a terminal repair. */
  function WriteTerminal(
    t: Tables, attempt: Attempt, job: Job, request: Evidence.TerminalCommit, audit: Audit): Answer<Tables>
  {
    var id := request.attemptId;
    var _ :- Need(StateMayBecome(attempt.state, request.state), AbortedByTrigger);
    var artifacts :- Register(t.artifacts, attempt.jobId, id, request.artifacts, request.finishedAtMs);
    var reservations :- Release(t.reservations, id, audit.observedAtMs, "ADMIN_RUNTIME_REPAIR");
    var _ :- Need(ResolutionMayBecome(job.resolution, ResolutionFor(request.state)), AbortedByTrigger);
    Done(Tables(
      t.jobs[attempt.jobId := RepairedJob(job, request.state)],
      t.attempts[id := RepairedAttempt(attempt, request, audit)],
      reservations,
      RepairEvents(t.events, attempt, request, audit),
      artifacts))
  }

  /** What a terminal repair commits, or why it is refused. */
  function TerminalRepair(t: Tables, request: Evidence.TerminalCommit, audit: Audit): Answer<Tables> {
    var (attempt, job) :- CheckTerminal(t, request, audit);
    WriteTerminal(t, attempt, job, request, audit)
  }

  /** Neither trigger ever stops a repair that passed its own tests. */
  lemma TriggersNeverFire(t: Tables, request: Evidence.TerminalCommit, audit: Audit)
    ensures TerminalRepair(t, request, audit) != Refused(AbortedByTrigger)
  {
    match CheckTerminal(t, request, audit) {
      case Done((attempt, job)) => WriteIsNotAborted(t, attempt, job, request, audit);
      case Refused(_) =>
    }
  }

  lemma WriteIsNotAborted(t: Tables, attempt: Attempt, job: Job, request: Evidence.TerminalCommit, audit: Audit)
    requires RepairAllowed(attempt.state, request.state) && job.resolution == ResolutionFor(attempt.state)
    ensures WriteTerminal(t, attempt, job, request, audit) != Refused(AbortedByTrigger)
  {
    RegisterRefusal(t.artifacts, attempt.jobId, request.attemptId, request.artifacts, request.finishedAtMs);
  }

  lemma {:induction false} RegisterRefusal(
    artifacts: Artifacts, jobId: string, id: string, entries: seq<Evidence.Registration>, at: nat)
    ensures var r := Register(artifacts, jobId, id, entries, at); r.Refused? ==> r.error == ArtifactIdentityConflict
    decreases |entries|
  {
    if entries != [] && !Collides(artifacts, id, entries[0]) {
      RegisterRefusal(artifacts[entries[0].artifactId := Artifact(jobId, id, entries[0], at)], jobId, id,
        entries[1..], at);
    }
  }

  predicate EvidenceComplete(attempt: Attempt, job: Job) {
    && IsTerminal(attempt.state)
    && attempt.outcome.resultDigest.Some?
    && attempt.outcome.finishedAtMs.Some?
    && job.resolution == ResolutionFor(attempt.state)
    && job.current.None?
  }

  /** The reservation state that a terminal Attempt must end in. */
  function TerminalTarget(attempt: Attempt, job: Job): Answer<ReservationState> {
    if !EvidenceComplete(attempt, job) then Refused(ReconciliationRequired)
    else Done(if attempt.state == Orphaned then HeldOrphaned else Released)
  }

  /** The names under which a reservation move is recorded. */
  datatype Wording = Wording(eventType: string, eventReason: string, holdReason: string, releaseReason: string)

  const ADMIN_WORDING := Wording(
    "ADMIN_RESERVATION_REPAIR", "ADMIN_RUNTIME_REPAIR", "ADMIN_RUNTIME_REPAIR", "ADMIN_RUNTIME_REPAIR")

  const CONVERGE_WORDING := Wording(
    "TERMINAL_RESERVATION_CONVERGED", "TERMINAL_RESERVATION_CONVERGED",
    "TERMINAL_ORPHAN_RESERVATION_CONVERGED", "TERMINAL_RESERVATION_CONVERGED")

  function MoveEvent(id: string, attempt: Attempt, at: nat, wording: Wording): Event {
    Event(attempt.jobId, id, 0, wording.eventType, attempt.state, attempt.state, wording.eventReason, at)
  }

  /** Moves a reservation to its target and logs the move; nothing changes when it is there already. */
  function MoveReservation(
    t: Tables, id: string, attempt: Attempt, job: Job, reservation: Reservation, at: nat, wording: Wording
  ): Answer<Tables>
  {
    var target :- TerminalTarget(attempt, job);
    if target == reservation.state then Done(t)
    else
      var reservations :-
        if target == HeldOrphaned then Hold(t.reservations, id, at, wording.holdReason)
        else Release(t.reservations, id, at, wording.releaseReason);
      Done(t.(reservations := reservations, events := WithEvent(t.events, MoveEvent(id, attempt, at, wording))))
  }

  /** What a reservation repair commits, or why it is refused. */
  function ReservationRepair(t: Tables, id: string, expectedRowVersion: nat, audit: Audit): Answer<Tables> {
    var attempt :- Load(t.attempts, id, AttemptNotFound);
    var job :- Load(t.jobs, attempt.jobId, JobNotFound);
    var reservation :- Load(t.reservations, id, ReservationStateConflict);
    var _ :- Need(PlanIsCurrent(attempt, job, reservation, expectedRowVersion, audit), ReconciliationRequired);
    MoveReservation(t, id, attempt, job, reservation, audit.observedAtMs, ADMIN_WORDING)
  }

  /** The unattended form of the same move, made without a plan. */
  function ReservationConvergence(t: Tables, id: string, at: nat): Answer<Tables> {
    var attempt :- Load(t.attempts, id, AttemptNotFound);
    var job :- Load(t.jobs, attempt.jobId, JobNotFound);
    var reservation :- Load(t.reservations, id, ReservationStateConflict);
    MoveReservation(t, id, attempt, job, reservation, at, CONVERGE_WORDING)
  }

  function Perform(t: Tables, operation: Operation): Answer<Tables> {
    match operation
    case Terminal(request, audit) => TerminalRepair(t, request, audit)
    case Reserve(id, version, audit) => ReservationRepair(t, id, version, audit)
    case Converge(id, at) => ReservationConvergence(t, id, at)
  }

  /** All operations in order inside one transaction; the first refusal refuses the whole. */
  function PerformAll(t: Tables, operations: seq<Operation>): Answer<Tables>
    decreases |operations|
  {
    if operations == [] then Done(t)
    else
      var next :- Perform(t, operations[0]);
      PerformAll(next, operations[1..])
  }

  lemma {:induction false} PerformAllSnoc(t: Tables, operations: seq<Operation>, operation: Operation)
    ensures PerformAll(t, operations + [operation]) ==
            (match PerformAll(t, operations) case Refused(e) => Refused(e) case Done(u) => Perform(u, operation))
    decreases |operations|
  {
    var all := operations + [operation];
    if operations == [] {
      assert all[1..] == [];
      match Perform(t, operation) { case Done(_) => case Refused(_) => }
    } else {
      assert all[0] == operations[0] && all[1..] == operations[1..] + [operation];
      match Perform(t, operations[0]) {
        case Done(next) => PerformAllSnoc(next, operations[1..], operation);
        case Refused(_) =>
      }
    }
  }

  lemma {:induction false} RefusalEndsTheBatch(t: Tables, operations: seq<Operation>, k: nat)
    requires k <= |operations| && PerformAll(t, operations[..k]).Refused?
    ensures PerformAll(t, operations) == PerformAll(t, operations[..k])
    decreases k
  {
    if k > 0 && operations != [] {
      var head := operations[..k];
      assert head[0] == operations[0] && head[1..] == operations[1..][..k - 1];
      match Perform(t, operations[0]) {
        case Done(next) => RefusalEndsTheBatch(next, operations[1..], k - 1);
        case Refused(_) =>
      }
    }
  }

  lemma BatchStep(t: Tables, operations: seq<Operation>, i: nat, now: Tables)
    requires i < |operations| && PerformAll(t, operations[..i]) == Done(now)
    ensures match Perform(now, operations[i])
            case Done(next) => PerformAll(t, operations[..i + 1]) == Done(next)
            case Refused(e) => PerformAll(t, operations) == Refused(e)
  {
    assert operations[..i + 1] == operations[..i] + [operations[i]];
    PerformAllSnoc(t, operations[..i], operations[i]);
    if PerformAll(t, operations[..i + 1]).Refused? { RefusalEndsTheBatch(t, operations, i + 1); }
  }

  // ----- The seven invariant queries -----

  /** One row that an invariant query returns. */
  datatype Violation =
    | UnresolvedJobWithoutCurrentAttempt(jobId: string)
    | ResolvedJobWithCurrentAttempt(jobId: string, attemptId: string)
    | UnresolvedJobPointsToTerminalAttempt(jobId: string, attemptId: string)
    | JobResolutionAttemptStateMismatch(jobId: string, attemptId: string)
    | TerminalAttemptHoldsReservation(jobId: string, attemptId: string)
    | OrphanReservationNotHeld(jobId: string, attemptId: string)
    | TerminalAttemptMissingEvidence(jobId: string, attemptId: string)

  predicate HasNewer(t: Tables, id: string)
    requires id in t.attempts
  {
    exists n :: n in t.attempts && t.attempts[n].jobId == t.attempts[id].jobId
      && t.attempts[n].number > t.attempts[id].number
  }

  /** The query behind a violation returns its row. */
  predicate Reported(t: Tables, v: Violation) {
    match v
    case UnresolvedJobWithoutCurrentAttempt(j) =>
      j in t.jobs && t.jobs[j].resolution.None? && t.jobs[j].current.None?
    case ResolvedJobWithCurrentAttempt(j, a) =>
      j in t.jobs && t.jobs[j].resolution.Some? && t.jobs[j].current == Some(a)
    case UnresolvedJobPointsToTerminalAttempt(j, a) =>
      j in t.jobs && a in t.attempts && t.jobs[j].current == Some(a) && t.jobs[j].resolution.None?
        && IsTerminal(t.attempts[a].state)
    case JobResolutionAttemptStateMismatch(j, a) =>
      && j in t.jobs && a in t.attempts && t.attempts[a].jobId == j
      && t.jobs[j].resolution.Some? && !HasNewer(t, a) && t.jobs[j].resolution != ResolutionFor(t.attempts[a].state)
    case TerminalAttemptHoldsReservation(j, a) =>
      && a in t.attempts && t.attempts[a].jobId == j && a in t.reservations
      && (IsRunnerTerminal(t.attempts[a].state) || t.attempts[a].state == Lost) && t.reservations[a].state != Released
    case OrphanReservationNotHeld(j, a) =>
      && a in t.attempts && t.attempts[a].jobId == j && a in t.reservations
      && t.attempts[a].state == Orphaned && t.reservations[a].state != HeldOrphaned
    case TerminalAttemptMissingEvidence(j, a) =>
      && a in t.attempts && t.attempts[a].jobId == j && IsTerminal(t.attempts[a].state)
      && (t.attempts[a].outcome.resultDigest.None? || t.attempts[a].outcome.finishedAtMs.None?)
  }

  predicate JobIsSound(t: Tables, j: string)
    requires j in t.jobs
  {
    var job := t.jobs[j];
    match (job.resolution, job.current)
    case (None, None) => false
    case (Some(_), Some(_)) => false
    case (None, Some(a)) => a in t.attempts ==> !IsTerminal(t.attempts[a].state)
    case (Some(_), None) =>
      forall a | a in t.attempts && t.attempts[a].jobId == j && !HasNewer(t, a) ::
        job.resolution == ResolutionFor(t.attempts[a].state)
  }

  predicate AttemptIsSound(t: Tables, a: string)
    requires a in t.attempts
  {
    var attempt := t.attempts[a];
    IsTerminal(attempt.state) ==>
      && attempt.outcome.resultDigest.Some? && attempt.outcome.finishedAtMs.Some?
      && (a in t.reservations ==>
        t.reservations[a].state == (if attempt.state == Orphaned then HeldOrphaned else Released))
  }

  /** The checker's verdict as one sweep over the rows. */
  predicate IsSound(t: Tables) {
    && (forall j | j in t.jobs :: JobIsSound(t, j))
    && (forall a | a in t.attempts :: AttemptIsSound(t, a))
  }

  /** The sweep is empty exactly when none of the seven queries returns a row. */
  lemma SoundMeansNothingReported(t: Tables)
    ensures IsSound(t) <==> forall v :: !Reported(t, v)
  {
    if forall v :: !Reported(t, v) {
      forall j | j in t.jobs ensures JobIsSound(t, j) { NothingReportedAboutJob(t, j); }
      forall a | a in t.attempts ensures AttemptIsSound(t, a) { NothingReportedAboutAttempt(t, a); }
    }
    if IsSound(t) {
      forall v ensures !Reported(t, v) {
        if Reported(t, v) { SoundReportsNothing(t, v); }
      }
    }
  }

  lemma NothingReportedAboutJob(t: Tables, j: string)
    requires j in t.jobs && forall v :: !Reported(t, v)
    ensures JobIsSound(t, j)
  {
    assert !Reported(t, UnresolvedJobWithoutCurrentAttempt(j));
    match t.jobs[j].current {
      case Some(a) =>
        assert !Reported(t, ResolvedJobWithCurrentAttempt(j, a));
        assert !Reported(t, UnresolvedJobPointsToTerminalAttempt(j, a));
      case None =>
        forall a | a in t.attempts && t.attempts[a].jobId == j && !HasNewer(t, a) && t.jobs[j].resolution.Some?
          ensures t.jobs[j].resolution == ResolutionFor(t.attempts[a].state)
        {
          assert !Reported(t, JobResolutionAttemptStateMismatch(j, a));
        }
    }
  }

  lemma NothingReportedAboutAttempt(t: Tables, a: string)
    requires a in t.attempts && forall v :: !Reported(t, v)
    ensures AttemptIsSound(t, a)
  {
    var j := t.attempts[a].jobId;
    assert !Reported(t, TerminalAttemptHoldsReservation(j, a));
    assert !Reported(t, OrphanReservationNotHeld(j, a));
    assert !Reported(t, TerminalAttemptMissingEvidence(j, a));
  }

  lemma SoundReportsNothing(t: Tables, v: Violation)
    requires IsSound(t)
    ensures !Reported(t, v)
  {
    if v.UnresolvedJobWithoutCurrentAttempt? || v.ResolvedJobWithCurrentAttempt?
       || v.UnresolvedJobPointsToTerminalAttempt? || v.JobResolutionAttemptStateMismatch? {
      assert v.jobId in t.jobs ==> JobIsSound(t, v.jobId);
    } else {
      assert v.attemptId in t.attempts ==> AttemptIsSound(t, v.attemptId);
    }
  }

  // ----- The transactions as they run: statement after statement on an open transaction -----

  class Transaction {
    var jobs: map<string, Job>
    var attempts: map<string, Attempt>
    var reservations: map<string, Reservation>
    var events: seq<Event>
    var artifacts: Artifacts

    function Contents(): Tables
      reads this
    {
      Tables(jobs, attempts, reservations, events, artifacts)
    }

    constructor (t: Tables)
      ensures Contents() == t
    {
      jobs, attempts, reservations, events, artifacts := t.jobs, t.attempts, t.reservations, t.events, t.artifacts;
    }

    method AppendEvent(event: Event)
      modifies this`events
      ensures events == WithEvent(old(events), event)
      ensures AreNumbered(old(events)) ==>
        && AreNumbered(events)
        && events[|old(events)|].sequence == EventCount(events, event.jobId) == EventCount(old(events), event.jobId) + 1
    {
      AppendedIsNumbered(events, event);
      var sequence := LastSequence(events, event.jobId) + 1;
      events := events + [event.(sequence := sequence)];
    }

    method ReleaseReservation(id: string, at: nat, reason: string) returns (r: Answer<()>)
      modifies this`reservations
      ensures r.Refused? ==> reservations == old(reservations)
      ensures r.Done? ==>
        Occupied(reservations) == Occupied(old(reservations)) - {id} && reservations - {id} == old(reservations) - {id}
      ensures r.Done? && id !in Occupied(old(reservations)) ==> reservations == old(reservations)
      ensures match Release(old(reservations), id, at, reason)
              case Done(after) => r.Done? && reservations == after
              case Refused(e) => r == Refused(e)
    {
      if id in reservations && reservations[id].state != Released {
        reservations := reservations[id := Reservation(Released, Some(at), Some(reason), at)];
      } else if id !in reservations {
        return Refused(ReservationStateConflict);
      }
      return Done(());
    }

    method HoldOrphanedReservation(id: string, at: nat, reason: string) returns (r: Answer<()>)
      modifies this`reservations
      ensures r.Refused? ==> reservations == old(reservations)
      ensures r.Done? <==> id in Occupied(old(reservations))
      ensures r.Done? ==>
        Occupied(reservations) == Occupied(old(reservations)) && reservations - {id} == old(reservations) - {id}
      ensures r.Done? ==> reservations[id].state == HeldOrphaned && reservations[id].releasedAtMs.None?
      ensures match Hold(old(reservations), id, at, reason)
              case Done(after) => r.Done? && reservations == after
              case Refused(e) => r == Refused(e)
    {
      if id !in reservations || reservations[id].state == Released {
        return Refused(ReservationStateConflict);
      }
      reservations := reservations[id := Reservation(HeldOrphaned, None, Some(reason), at)];
      return Done(());
    }

    method RegisterArtifacts(
      jobId: string, id: string, entries: seq<Evidence.Registration>, at: nat) returns (r: Answer<()>)
      modifies this`artifacts
      ensures match Register(old(artifacts), jobId, id, entries, at)
              case Done(after) => r.Done? && artifacts == after
              case Refused(e) => r == Refused(e)
    {
      var i := 0;
      while i < |entries|
        invariant 0 <= i <= |entries|
        invariant Register(old(artifacts), jobId, id, entries, at) == Register(artifacts, jobId, id, entries[i..], at)
      {
        var entry := entries[i];
        assert entries[i..][0] == entry && entries[i..][1..] == entries[i + 1..];
        if Collides(artifacts, id, entry) {
          return Refused(ArtifactIdentityConflict);
        }
        artifacts := artifacts[entry.artifactId := Artifact(jobId, id, entry, at)];
        i := i + 1;
      }
      return Done(());
    }

    method WriteRepair(
      attempt: Attempt, job: Job, request: Evidence.TerminalCommit, audit: Audit) returns (r: Answer<()>)
      requires request.attemptId in attempts && attempts[request.attemptId] == attempt
      requires StateMayBecome(attempt.state, request.state)
      requires ResolutionMayBecome(job.resolution, ResolutionFor(request.state))
      modifies this
      ensures match WriteTerminal(old(Contents()), attempt, job, request, audit)
              case Done(after) => r.Done? && Contents() == after
              case Refused(e) => r == Refused(e)
    {
      var id := request.attemptId;
      attempts := attempts[id := attempts[id].(state := request.state, outcome := OutcomeOf(request),
        rowVersion := attempts[id].rowVersion + 1)];
      var _ :- RegisterArtifacts(attempt.jobId, id, request.artifacts, request.finishedAtMs);
      attempts := attempts[id := attempts[id].(recovery := Some(Recovery(false, "ADMIN_REPAIR_COMPLETED",
        audit.caseFingerprint, audit.observedAtMs)))];
      assert attempts == old(attempts)[id := RepairedAttempt(attempt, request, audit)];
      var _ :- ReleaseReservation(id, audit.observedAtMs, "ADMIN_RUNTIME_REPAIR");
      jobs := jobs[attempt.jobId := Job(ResolutionFor(request.state), None, job.rowVersion + 1)];
      var event := Event(attempt.jobId, id, 0, "ADMIN_TERMINAL_REPAIR", attempt.state, request.state,
        request.reasonCode, audit.observedAtMs);
      AppendEvent(event);
      AppendEvent(event.(eventType := "JOB_RESOLUTION_ADMIN_CORRECTED"));
      assert events == RepairEvents(old(events), attempt, request, audit);
      return Done(());
    }

    method RepairTerminal(request: Evidence.TerminalCommit, audit: Audit) returns (r: Answer<()>)
      modifies this
      ensures match TerminalRepair(old(Contents()), request, audit)
              case Done(after) => r.Done? && Contents() == after
              case Refused(e) => r == Refused(e)
    {
      var subject :- CheckTerminal(Contents(), request, audit);
      r := WriteRepair(subject.0, subject.1, request, audit);
    }

    method MoveToTarget(
      id: string, attempt: Attempt, job: Job, reservation: Reservation, at: nat, wording: Wording)
      returns (r: Answer<()>)
      modifies this`reservations, this`events
      ensures match MoveReservation(old(Contents()), id, attempt, job, reservation, at, wording)
              case Done(after) => r.Done? && Contents() == after
              case Refused(e) => r == Refused(e)
    {
      var target :- TerminalTarget(attempt, job);
      if target == reservation.state {
        return Done(());
      }
      if target == HeldOrphaned {
        var _ :- HoldOrphanedReservation(id, at, wording.holdReason);
      } else {
        var _ :- ReleaseReservation(id, at, wording.releaseReason);
      }
      AppendEvent(MoveEvent(id, attempt, at, wording));
      return Done(());
    }

    method RepairTerminalReservation(id: string, expectedRowVersion: nat, audit: Audit) returns (r: Answer<()>)
      modifies this`reservations, this`events
      ensures match ReservationRepair(old(Contents()), id, expectedRowVersion, audit)
              case Done(after) => r.Done? && Contents() == after
              case Refused(e) => r == Refused(e)
    {
      var attempt :- Load(attempts, id, AttemptNotFound);
      var job :- Load(jobs, attempt.jobId, JobNotFound);
      var reservation :- Load(reservations, id, ReservationStateConflict);
      var _ :- Need(PlanIsCurrent(attempt, job, reservation, expectedRowVersion, audit), ReconciliationRequired);
      r := MoveToTarget(id, attempt, job, reservation, audit.observedAtMs, ADMIN_WORDING);
    }

    method ConvergeReservation(id: string, at: nat) returns (r: Answer<()>)
      modifies this`reservations, this`events
      ensures match ReservationConvergence(old(Contents()), id, at)
              case Done(after) => r.Done? && Contents() == after
              case Refused(e) => r == Refused(e)
    {
      var attempt :- Load(attempts, id, AttemptNotFound);
      var job :- Load(jobs, attempt.jobId, JobNotFound);
      var reservation :- Load(reservations, id, ReservationStateConflict);
      r := MoveToTarget(id, attempt, job, reservation, at, CONVERGE_WORDING);
    }

    method Execute(operation: Operation) returns (r: Answer<()>)
      modifies this
      ensures match Perform(old(Contents()), operation)
              case Done(after) => r.Done? && Contents() == after
              case Refused(e) => r == Refused(e)
    {
      match operation {
        case Terminal(request, audit) => r := RepairTerminal(request, audit);
        case Reserve(id, version, audit) => r := RepairTerminalReservation(id, version, audit);
        case Converge(id, at) => r := ConvergeReservation(id, at);
      }
    }

    /** The operations of a batch, up to the first that is refused. */
    method ExecuteAll(operations: seq<Operation>) returns (r: Answer<()>)
      modifies this
      ensures match PerformAll(old(Contents()), operations)
              case Done(after) => r.Done? && Contents() == after
              case Refused(e) => r == Refused(e)
    {
      ghost var before := Contents();
      var i := 0;
      while i < |operations|
        invariant 0 <= i <= |operations|
        invariant PerformAll(before, operations[..i]) == Done(Contents())
      {
        BatchStep(before, operations, i, Contents());
        var step := Execute(operations[i]);
        if step.Refused? { return Refused(step.error); }
        i := i + 1;
      }
      assert operations[..i] == operations;
      r := Done(());
    }
  }

  class Database {
    var committed: Tables

    /** A batch changes the committed tables all together or not at all, and it
        commits exactly when every operation is accepted and no invariant query returns a row. */
    method RepairAdminBatch(operations: seq<AdminOperation>) returns (r: Answer<()>)
      modifies this
      ensures r.Done? <==>
        var planned := PerformAll(old(committed), operations);
        planned.Done? && forall v :: !Reported(planned.value, v)
      ensures r.Done? ==> PerformAll(old(committed), operations) == Done(committed)
      ensures r.Refused? ==> committed == old(committed)
    {
      var transaction := new Transaction(committed);
      var done := transaction.ExecuteAll(operations);
      if done.Refused? { return done; }
      SoundMeansNothingReported(transaction.Contents());
      if !IsSound(transaction.Contents()) {
        return Refused(ReconciliationRequired);
      }
      committed := transaction.Contents();
      return Done(());
    }
  }
}
