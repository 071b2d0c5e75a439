/** What administrative repair does to the invariants, in one step and over every run. */
module RepairRuns {
  import opened Types
  import opened Registry
  import opened EventLog
  import Evidence

  // ----- One step, seen from outside -----

  /** The tables after a committed terminal repair, apart from the artifacts. */
  predicate IsRepairOf(t: Tables, u: Tables, request: Evidence.TerminalCommit, audit: Audit) {
    var id := request.attemptId;
    && id in t.attempts && id in t.reservations && t.attempts[id].jobId in t.jobs
    && var attempt := t.attempts[id];
    && RepairAllowed(attempt.state, request.state)
    && attempt.rowVersion == request.expectedRowVersion
    && t.jobs[attempt.jobId].resolution == ResolutionFor(attempt.state)
    && u.jobs == t.jobs[attempt.jobId := RepairedJob(t.jobs[attempt.jobId], request.state)]
    && u.attempts == t.attempts[id := RepairedAttempt(attempt, request, audit)]
    && u.reservations ==
      t.reservations[id := FreedReservation(t.reservations[id], audit.observedAtMs, "ADMIN_RUNTIME_REPAIR")]
    && u.events == RepairEvents(t.events, attempt, request, audit)
  }

  lemma CommittedRepair(t: Tables, u: Tables, request: Evidence.TerminalCommit, audit: Audit)
    requires TerminalRepair(t, request, audit) == Done(u)
    ensures IsRepairOf(t, u, request, audit)
  {
  }

  /** The tables after a committed reservation move: unchanged, or one reservation moved and one event added. */
  ghost predicate IsMoveOf(t: Tables, u: Tables, id: string) {
    && id in t.attempts && id in t.reservations && t.attempts[id].jobId in t.jobs
    && EvidenceComplete(t.attempts[id], t.jobs[t.attempts[id].jobId])
    && u == t.(reservations := u.reservations, events := u.events)
    && (u == t ||
        (&& (exists e: Event :: u.events == WithEvent(t.events, e))
         && t.reservations[id].state != Released
         && exists r: Reservation ::
           u.reservations == t.reservations[id := r] && (r.state == Released <==> r.releasedAtMs.Some?)))
    && u.reservations[id].state == (if t.attempts[id].state == Orphaned then HeldOrphaned else Released)
    && (u == t || t.reservations[id].state != u.reservations[id].state)
  }

  lemma CommittedMove(
    t: Tables, u: Tables, id: string, attempt: Attempt, job: Job, reservation: Reservation, at: nat,
    wording: Wording)
    requires id in t.attempts && id in t.reservations && t.attempts[id].jobId in t.jobs
    requires attempt == t.attempts[id] && job == t.jobs[attempt.jobId] && reservation == t.reservations[id]
    requires MoveReservation(t, id, attempt, job, reservation, at, wording) == Done(u)
    ensures IsMoveOf(t, u, id)
  {
    if u != t {
      assert u.events == WithEvent(t.events, MoveEvent(id, attempt, at, wording));
      assert u.reservations == t.reservations[id := u.reservations[id]];
    }
  }

  /** The Attempt that an operation is about. */
  function Target(operation: Operation): string {
    match operation
    case Terminal(request, _) => request.attemptId
    case Reserve(id, _, _) => id
    case Converge(id, _) => id
  }

  lemma CommittedOperation(t: Tables, u: Tables, operation: Operation)
    requires Perform(t, operation) == Done(u)
    ensures operation.Terminal? ==> IsRepairOf(t, u, operation.request, operation.audit)
    ensures !operation.Terminal? ==> IsMoveOf(t, u, Target(operation))
  {
    match operation {
      case Terminal(request, audit) => CommittedRepair(t, u, request, audit);
      case Reserve(id, _, audit) =>
        var attempt := t.attempts[id];
        CommittedMove(t, u, id, attempt, t.jobs[attempt.jobId], t.reservations[id], audit.observedAtMs, ADMIN_WORDING);
      case Converge(id, at) =>
        var attempt := t.attempts[id];
        CommittedMove(t, u, id, attempt, t.jobs[attempt.jobId], t.reservations[id], at, CONVERGE_WORDING);
    }
  }

  /** A terminal repair commits exactly for a well-formed request on a lost or orphaned Attempt, made from the
      very rows that are there, with artifacts that collide with nothing. */
  lemma RepairCommitsExactlyWhen(t: Tables, request: Evidence.TerminalCommit, audit: Audit)
    ensures TerminalRepair(t, request, audit).Done? <==>
      && IsWellFormed(request)
      && request.attemptId in t.attempts && request.attemptId in t.reservations
      && var attempt := t.attempts[request.attemptId];
      && attempt.jobId in t.jobs
      && var job := t.jobs[attempt.jobId];
      && (IsRunnerTerminal(request.state) || request.state == attempt.state == Lost)
      && (attempt.state == Lost || attempt.state == Orphaned)
      && attempt.rowVersion == request.expectedRowVersion && job.rowVersion == audit.expectedJobRowVersion
      && job.current == audit.expectedCurrent && t.reservations[request.attemptId].state == audit.expectedReservation
      && job.resolution == ResolutionFor(attempt.state)
      && Register(t.artifacts, attempt.jobId, request.attemptId, request.artifacts, request.finishedAtMs).Done?
  {
    match CheckTerminal(t, request, audit) {
      case Done(_) => TriggersNeverFire(t, request, audit);
      case Refused(_) =>
    }
  }

  /** A refusal says why: what is malformed or missing first, then a change of state that no repair may make, then
      a plan that the rows have left behind, and last an artifact that is there already. */
  lemma RepairIsRefusedFor(t: Tables, request: Evidence.TerminalCommit, audit: Audit)
    requires TerminalRepair(t, request, audit).Refused?
    ensures var error, id := TerminalRepair(t, request, audit).error, request.attemptId;
      var named := IsWellFormed(request) && id in t.attempts;
      var found := named && t.attempts[id].jobId in t.jobs && id in t.reservations;
      var allowed := found && (t.attempts[id].state == Lost || t.attempts[id].state == Orphaned)
        && (IsRunnerTerminal(request.state) || request.state == t.attempts[id].state == Lost);
      var current := allowed && IsPlannedFrom(t, id, request.expectedRowVersion, audit)
        && t.jobs[t.attempts[id].jobId].resolution == ResolutionFor(t.attempts[id].state);
      && (error == InvalidRequest <==> !IsWellFormed(request))
      && (error == AttemptNotFound <==> IsWellFormed(request) && !named)
      && (error == JobNotFound <==> named && t.attempts[id].jobId !in t.jobs)
      && (error == ReservationStateConflict <==> named && t.attempts[id].jobId in t.jobs && !found)
      && (error == OrphanRemediationDenied <==> found && !allowed)
      && (error == ReconciliationRequired <==> allowed && !current)
      && (error == ArtifactIdentityConflict <==> current)
  {
    match CheckTerminal(t, request, audit) {
      case Done((attempt, job)) =>
        WriteIsNotAborted(t, attempt, job, request, audit);
        RegisterRefusal(t.artifacts, attempt.jobId, request.attemptId, request.artifacts, request.finishedAtMs);
      case Refused(_) =>
    }
  }

  /** A reservation repair commits exactly for a plan made from the very rows that are there, of an Attempt that
      ended with complete evidence, unless it is orphaned and its reservation already released; anything stale
      is a matter for reconciliation. */
  lemma ReservationRepairCommitsExactlyWhen(t: Tables, id: string, version: nat, audit: Audit)
    ensures ReservationRepair(t, id, version, audit).Done? <==>
      && id in t.attempts && id in t.reservations && t.attempts[id].jobId in t.jobs
      && var attempt, reservation := t.attempts[id], t.reservations[id];
      && var job := t.jobs[attempt.jobId];
      && attempt.rowVersion == version && job.rowVersion == audit.expectedJobRowVersion
      && job.current == audit.expectedCurrent && reservation.state == audit.expectedReservation
      && IsTerminal(attempt.state) && attempt.outcome.resultDigest.Some? && attempt.outcome.finishedAtMs.Some?
      && job.resolution == ResolutionFor(attempt.state) && job.current.None?
      && !(attempt.state == Orphaned && reservation.state == Released)
    ensures id in t.attempts && id in t.reservations && t.attempts[id].jobId in t.jobs ==>
      (!PlanIsCurrent(t.attempts[id], t.jobs[t.attempts[id].jobId], t.reservations[id], version, audit) ==>
        ReservationRepair(t, id, version, audit) == Refused(ReconciliationRequired))
  {
  }

  /** Every refusal of a reservation move, with or without a plan: a missing row, a plan that the rows have left
      behind or incomplete evidence, and an orphaned Attempt whose slot is already free. */
  lemma MoveIsRefusedFor(t: Tables, operation: Operation)
    requires !operation.Terminal?
    ensures var id, r := Target(operation), Perform(t, operation);
      var named := id in t.attempts && t.attempts[id].jobId in t.jobs;
      var found := named && id in t.reservations;
      var ready := found && EvidenceComplete(t.attempts[id], t.jobs[t.attempts[id].jobId])
        && (operation.Reserve? ==> IsPlannedFrom(t, id, operation.expectedRowVersion, operation.audit));
      var stuck := ready && t.attempts[id].state == Orphaned && t.reservations[id].state == Released;
      && (r == Refused(AttemptNotFound) <==> id !in t.attempts)
      && (r == Refused(JobNotFound) <==> id in t.attempts && !named)
      && (r == Refused(ReservationStateConflict) <==> (named && !found) || stuck)
      && (r == Refused(ReconciliationRequired) <==> found && !ready)
      && (r.Done? <==> ready && !stuck)
  {
  }

  /** A committed repair is on record: two more events of the Job, numbered on, both from the old to the new state. */
  lemma RepairIsRecorded(t: Tables, u: Tables, request: Evidence.TerminalCommit, audit: Audit)
    requires TerminalRepair(t, request, audit) == Done(u)
    ensures var attempt, n := t.attempts[request.attemptId], |t.events|;
      && |u.events| == n + 2 && u.events[..n] == t.events
      && (forall k | n <= k < n + 2 ::
            && u.events[k].jobId == attempt.jobId && u.events[k].attemptId == request.attemptId
            && u.events[k].previous == attempt.state && u.events[k].next == request.state
            && u.events[k].reasonCode == request.reasonCode && u.events[k].observedAtMs == audit.observedAtMs
            && u.events[k].sequence == LastSequence(t.events, attempt.jobId) + 1 + (k - n))
      && u.events[n].eventType == "ADMIN_TERMINAL_REPAIR"
      && u.events[n + 1].eventType == "JOB_RESOLUTION_ADMIN_CORRECTED"
  {
    CommittedRepair(t, u, request, audit);
    var attempt := t.attempts[request.attemptId];
    var first := Event(attempt.jobId, request.attemptId, 0, "ADMIN_TERMINAL_REPAIR",
                       attempt.state, request.state, request.reasonCode, audit.observedAtMs);
    NextSequence(t.events, first);
    NextSequence(WithEvent(t.events, first), first.(eventType := "JOB_RESOLUTION_ADMIN_CORRECTED"));
  }

  function MovedAt(operation: Operation): nat
    requires !operation.Terminal?
  {
    match operation
    case Reserve(_, _, audit) => audit.observedAtMs
    case Converge(_, at) => at
  }

  /** A reservation move either finds the reservation where it belongs and changes nothing, or is on record: one
      more event of the Job, numbered on, and the reservation dated at the time of the move. */
  lemma MoveIsRecorded(t: Tables, u: Tables, operation: Operation)
    requires Perform(t, operation) == Done(u) && !operation.Terminal?
    ensures var id, n, at := Target(operation), |t.events|, MovedAt(operation);
      && id in t.attempts && id in t.reservations && id in u.reservations
      && var attempt := t.attempts[id];
      && (u == t <==> t.reservations[id].state == (if attempt.state == Orphaned then HeldOrphaned else Released))
      && (u != t ==>
            && |u.events| == n + 1 && u.events[..n] == t.events
            && u.events[n] == Event(attempt.jobId, id, LastSequence(t.events, attempt.jobId) + 1,
                 if operation.Reserve? then "ADMIN_RESERVATION_REPAIR" else "TERMINAL_RESERVATION_CONVERGED",
                 attempt.state, attempt.state,
                 if operation.Reserve? then "ADMIN_RUNTIME_REPAIR" else "TERMINAL_RESERVATION_CONVERGED", at)
            && u.reservations[id].observedAtMs == at
            && u.reservations[id].releasedAtMs == (if attempt.state == Orphaned then None else Some(at)))
  {
    CommittedOperation(t, u, operation);
  }

  // ----- Invariant checks after one step -----

  predicate IsLatest(t: Tables, jobId: string, id: string) {
    id in t.attempts && t.attempts[id].jobId == jobId && !HasNewer(t, id)
  }

  /** The schema's uniqueness of (job, attempt number). */
  predicate NumbersAreUnique(t: Tables) {
    forall a, b | a in t.attempts && b in t.attempts
      && t.attempts[a].jobId == t.attempts[b].jobId && t.attempts[a].number == t.attempts[b].number :: a == b
  }

  predicate SameNumbering(t: Tables, u: Tables) {
    && t.attempts.Keys == u.attempts.Keys
    && forall a | a in t.attempts ::
      t.attempts[a].jobId == u.attempts[a].jobId && t.attempts[a].number == u.attempts[a].number
  }

  lemma LatestIsKept(t: Tables, u: Tables, jobId: string, id: string)
    requires SameNumbering(t, u)
    ensures IsLatest(t, jobId, id) <==> IsLatest(u, jobId, id)
  {
    if id in t.attempts {
      if HasNewer(t, id) {
        var n :| n in t.attempts && t.attempts[n].jobId == t.attempts[id].jobId
          && t.attempts[n].number > t.attempts[id].number;
        assert n in u.attempts;
      }
      if HasNewer(u, id) {
        var n :| n in u.attempts && u.attempts[n].jobId == u.attempts[id].jobId
          && u.attempts[n].number > u.attempts[id].number;
        assert n in t.attempts;
      }
    }
  }

  lemma LatestIsUnique(t: Tables, jobId: string, a: string, b: string)
    requires NumbersAreUnique(t) && IsLatest(t, jobId, a) && IsLatest(t, jobId, b)
    ensures a == b
  {
  }

  /** The report is a finding of the checks on this Job's row or on this Attempt's row. */
  predicate Concerns(v: Violation, jobId: string, attemptId: string) {
    match v
    case UnresolvedJobWithoutCurrentAttempt(j) => j == jobId
    case ResolvedJobWithCurrentAttempt(j, _) => j == jobId
    case UnresolvedJobPointsToTerminalAttempt(j, _) => j == jobId
    case JobResolutionAttemptStateMismatch(j, _) => j == jobId
    case TerminalAttemptHoldsReservation(_, a) => a == attemptId
    case OrphanReservationNotHeld(_, a) => a == attemptId
    case TerminalAttemptMissingEvidence(_, a) => a == attemptId
  }

  lemma ResolutionNamesTheState(a: AttemptState, b: AttemptState)
    requires IsTerminal(a)
    ensures ResolutionFor(a) == ResolutionFor(b) <==> a == b
  {
  }

  lemma RepairKeepsNumbering(t: Tables, u: Tables, request: Evidence.TerminalCommit, audit: Audit)
    requires IsRepairOf(t, u, request, audit)
    ensures SameNumbering(t, u)
  {
  }

  /** The only report that a terminal repair can add or leave about its Job and Attempt: a newer
      Attempt of the same Job that ended differently. */
  lemma ReportsAfterRepair(t: Tables, u: Tables, request: Evidence.TerminalCommit, audit: Audit, v: Violation)
    requires IsRepairOf(t, u, request, audit)
    ensures var id, job := request.attemptId, t.attempts[request.attemptId].jobId;
      Reported(u, v) && (Concerns(v, job, id) || !Reported(t, v)) <==>
        && v.JobResolutionAttemptStateMismatch? && v.jobId == job
        && IsLatest(t, job, v.attemptId) && v.attemptId != id && t.attempts[v.attemptId].state != request.state
  {
    RepairKeepsNumbering(t, u, request, audit);
    var id := request.attemptId;
    if v.JobResolutionAttemptStateMismatch? {
      LatestIsKept(t, u, v.jobId, v.attemptId);
      if v.attemptId in t.attempts { ResolutionNamesTheState(request.state, t.attempts[v.attemptId].state); }
    }
  }

  /** Repairing the latest Attempt clears every report about its Job and itself and adds none. */
  lemma RepairOfLatestIsClean(t: Tables, u: Tables, request: Evidence.TerminalCommit, audit: Audit)
    requires TerminalRepair(t, request, audit) == Done(u)
    requires NumbersAreUnique(t) && !HasNewer(t, request.attemptId)
    ensures forall v :: Reported(u, v) ==>
      Reported(t, v) && !Concerns(v, t.attempts[request.attemptId].jobId, request.attemptId)
  {
    CommittedRepair(t, u, request, audit);
    var id, job := request.attemptId, t.attempts[request.attemptId].jobId;
    forall v | Reported(u, v) ensures Reported(t, v) && !Concerns(v, job, id) {
      ReportsAfterRepair(t, u, request, audit, v);
      if v.JobResolutionAttemptStateMismatch? && IsLatest(t, job, v.attemptId) {
        LatestIsUnique(t, job, id, v.attemptId);
      }
    }
  }

  /** How one Attempt of the repaired Job stands with the mismatch query afterwards. */
  lemma MatchAfterRepair(t: Tables, u: Tables, request: Evidence.TerminalCommit, audit: Audit, l: string)
    requires IsRepairOf(t, u, request, audit)
    ensures var job := t.attempts[request.attemptId].jobId;
      && (IsLatest(t, job, l) <==> IsLatest(u, job, l))
      && (l in t.attempts ==>
          (u.jobs[job].resolution == ResolutionFor(u.attempts[l].state) <==>
            l == request.attemptId || t.attempts[l].state == request.state))
  {
    RepairKeepsNumbering(t, u, request, audit);
    LatestIsKept(t, u, t.attempts[request.attemptId].jobId, l);
    if l in t.attempts { ResolutionNamesTheState(request.state, t.attempts[l].state); }
  }

  /** Exactly when the Job is clean afterwards, for a repair of any Attempt. */
  lemma RepairedJobIsSoundExactlyWhen(t: Tables, u: Tables, request: Evidence.TerminalCommit, audit: Audit)
    requires TerminalRepair(t, request, audit) == Done(u)
    ensures var job := t.attempts[request.attemptId].jobId;
      JobIsSound(u, job) <==>
        forall l | IsLatest(t, job, l) :: l == request.attemptId || t.attempts[l].state == request.state
  {
    CommittedRepair(t, u, request, audit);
    forall l { MatchAfterRepair(t, u, request, audit, l); }
    assert u.jobs[t.attempts[request.attemptId].jobId].current.None?;
  }

  // ----- A repair of an older Attempt -----

  const DIGEST: string := "sha256:" + seq(64, _ => '0')

  const LOST_ATTEMPT := Attempt("job", 1, "token", Natural, Lost, Outcome(Some(DIGEST), None, None, Some(5)), None, 3)

  const TWO_LOST := Tables(
    map["job" := Job(Some(ToLost), None, 4)],
    map["one" := LOST_ATTEMPT, "two" := LOST_ATTEMPT.(number := 2)],
    map["one" := Reservation(Released, Some(5), None, 5), "two" := Reservation(Released, Some(6), None, 6)],
    [], map[])

  const LATE_RESULT := Evidence.TerminalCommit("one", 3, Succeeded, DIGEST, Some(0), None, 5, [], "PROCESS_EXIT_ZERO")

  const LATE_PLAN := Audit("case", 9, 4, None, Released)

  /** A sound Registry, a permitted repair of the older of two lost Attempts, and a report that was not there before. */
  lemma OlderAttemptRepairAddsAReport()
    ensures IsSound(TWO_LOST)
    ensures var after := TerminalRepair(TWO_LOST, LATE_RESULT, LATE_PLAN);
      after.Done? && Reported(after.value, JobResolutionAttemptStateMismatch("job", "two"))
  {
    DigestIsWellFormed();
    assert "one" in TWO_LOST.attempts && "two" in TWO_LOST.attempts;
    assert HasNewer(TWO_LOST, "one");
    var after := TerminalRepair(TWO_LOST, LATE_RESULT, LATE_PLAN);
    assert after.Done?;
    CommittedRepair(TWO_LOST, after.value, LATE_RESULT, LATE_PLAN);
    ReportsAfterRepair(TWO_LOST, after.value, LATE_RESULT, LATE_PLAN, JobResolutionAttemptStateMismatch("job", "two"));
  }

  lemma DigestIsWellFormed()
    ensures IsSha256Digest(DIGEST)
  {
    assert DIGEST[..7] == "sha256:";
  }

  // ----- Every run -----

  /** Runs a list of operations, each in its own transaction, which a refusal rolls back. */
  function Run(t: Tables, operations: seq<Operation>): Tables
    decreases |operations|
  {
    if operations == [] then t
    else Run(match Perform(t, operations[0]) case Done(u) => u case Refused(_) => t, operations[1..])
  }

  /** A committed batch ends where the same operations end one transaction at a time. */
  lemma {:induction false} BatchIsARun(t: Tables, operations: seq<Operation>)
    ensures PerformAll(t, operations).Done? ==> PerformAll(t, operations) == Done(Run(t, operations))
    decreases |operations|
  {
    if operations != [] {
      match Perform(t, operations[0]) {
        case Done(u) => BatchIsARun(u, operations[1..]);
        case Refused(_) =>
      }
    }
  }

  predicate AttemptIsKept(a: Attempt, b: Attempt) {
    && a.jobId == b.jobId && a.number == b.number && a.launchTokenDigest == b.launchTokenDigest
    && (a == b || a.rowVersion < b.rowVersion)
    && (IsTerminal(a.state) ==> IsTerminal(b.state))
    && (IsRunnerTerminal(a.state) ==> a == b)
  }

  function Stage(state: ReservationState): nat {
    match state
    case Active => 0
    case HeldOrphaned => 1
    case Released => 2
  }

  /** A reservation only moves on; a released one stays as it is. */
  predicate ReservationIsKept(a: Reservation, b: Reservation) {
    a == b || Stage(a.state) < Stage(b.state)
  }

  /** What no repair ever undoes, between an earlier and a later state of the tables. */
  predicate History(t: Tables, u: Tables) {
    && t.attempts.Keys == u.attempts.Keys
    && (forall a | a in t.attempts :: AttemptIsKept(t.attempts[a], u.attempts[a]))
    && t.reservations.Keys == u.reservations.Keys
    && (forall a | a in t.reservations :: ReservationIsKept(t.reservations[a], u.reservations[a]))
    && t.jobs.Keys == u.jobs.Keys
    && (forall j | j in t.jobs :: t.jobs[j] == u.jobs[j] || t.jobs[j].rowVersion < u.jobs[j].rowVersion)
    && t.events <= u.events
    && (AreNumbered(t.events) ==> AreNumbered(u.events))
    && (NumbersAreUnique(t) ==> NumbersAreUnique(u))
    && (ReleasesAreDated(t) ==> ReleasesAreDated(u))
  }

  /** The schema's check on reservations: a release time is there exactly when it is released. */
  predicate ReleasesAreDated(t: Tables) {
    forall a | a in t.reservations :: t.reservations[a].state == Released <==> t.reservations[a].releasedAtMs.Some?
  }

  lemma HistoryChains(t: Tables, u: Tables, w: Tables)
    requires History(t, u) && History(u, w)
    ensures History(t, w)
  {
    forall a | a in t.attempts ensures AttemptIsKept(t.attempts[a], w.attempts[a]) {
      assert AttemptIsKept(t.attempts[a], u.attempts[a]) && AttemptIsKept(u.attempts[a], w.attempts[a]);
    }
  }

  lemma RepairIsHistory(t: Tables, u: Tables, request: Evidence.TerminalCommit, audit: Audit)
    requires IsRepairOf(t, u, request, audit)
    ensures History(t, u)
  {
    var attempt := t.attempts[request.attemptId];
    RepairEventsKeepNumbering(t.events, attempt, request, audit);
  }

  lemma RepairEventsKeepNumbering(events: seq<Event>, attempt: Attempt, request: Evidence.TerminalCommit, audit: Audit)
    ensures events <= RepairEvents(events, attempt, request, audit)
    ensures AreNumbered(events) ==> AreNumbered(RepairEvents(events, attempt, request, audit))
  {
    var first := Event(attempt.jobId, request.attemptId, 0, "ADMIN_TERMINAL_REPAIR",
                       attempt.state, request.state, request.reasonCode, audit.observedAtMs);
    if AreNumbered(events) {
      EventKeepsNumbering(events, first);
      EventKeepsNumbering(WithEvent(events, first), first.(eventType := "JOB_RESOLUTION_ADMIN_CORRECTED"));
    }
  }

  lemma MoveIsHistory(t: Tables, u: Tables, id: string)
    requires IsMoveOf(t, u, id)
    ensures History(t, u)
  {
    if u != t {
      var e: Event :| u.events == WithEvent(t.events, e);
      if AreNumbered(t.events) { EventKeepsNumbering(t.events, e); }
      MoveMovesOn(t, u, id);
    }
  }

  lemma MoveMovesOn(t: Tables, u: Tables, id: string)
    requires IsMoveOf(t, u, id) && u != t
    ensures t.reservations.Keys == u.reservations.Keys
    ensures forall a | a in t.reservations :: ReservationIsKept(t.reservations[a], u.reservations[a])
    ensures ReleasesAreDated(t) ==> ReleasesAreDated(u)
  {
  }

  lemma StepIsHistory(t: Tables, operation: Operation)
    ensures Perform(t, operation).Done? ==> History(t, Perform(t, operation).value)
  {
    if Perform(t, operation).Done? {
      var u := Perform(t, operation).value;
      CommittedOperation(t, u, operation);
      match operation {
        case Terminal(request, audit) => RepairIsHistory(t, u, request, audit);
        case Reserve(id, _, _) => MoveIsHistory(t, u, id);
        case Converge(id, _) => MoveIsHistory(t, u, id);
      }
    }
  }

  /** Over every run: a Runner-terminal Attempt is never rewritten, a released reservation stays as it
      was released, the slots in use never grow, and each Job's event numbers stay 1..n. */
  lemma {:induction false} RunIsHistory(t: Tables, operations: seq<Operation>)
    ensures History(t, Run(t, operations))
    ensures Occupied(Run(t, operations).reservations) <= Occupied(t.reservations)
    decreases |operations|
  {
    if operations != [] {
      match Perform(t, operations[0]) {
        case Done(u) =>
          StepIsHistory(t, operations[0]);
          RunIsHistory(u, operations[1..]);
          HistoryChains(t, u, Run(u, operations[1..]));
        case Refused(_) =>
          RunIsHistory(t, operations[1..]);
      }
    }
    HistoryFreesSlots(t, Run(t, operations));
  }

  lemma HistoryFreesSlots(t: Tables, u: Tables)
    requires History(t, u)
    ensures Occupied(u.reservations) <= Occupied(t.reservations)
  {
    forall a | a in Occupied(u.reservations) ensures a in Occupied(t.reservations) {
      assert ReservationIsKept(t.reservations[a], u.reservations[a]);
    }
  }

  /** A terminal-repair plan that has committed is refused from then on, whatever runs in between. */
  lemma PlanCommitsOnce(t: Tables, request: Evidence.TerminalCommit, audit: Audit, between: seq<Operation>)
    requires TerminalRepair(t, request, audit).Done?
    ensures TerminalRepair(Run(TerminalRepair(t, request, audit).value, between), request, audit).Refused?
  {
    var u := TerminalRepair(t, request, audit).value;
    CommittedRepair(t, u, request, audit);
    RunIsHistory(u, between);
    var w := Run(u, between);
    assert AttemptIsKept(u.attempts[request.attemptId], w.attempts[request.attemptId]);
    if TerminalRepair(w, request, audit).Done? {
      CommittedRepair(w, TerminalRepair(w, request, audit).value, request, audit);
    }
  }

  /** A plan is made from these rows. */
  predicate IsPlannedFrom(t: Tables, id: string, version: nat, audit: Audit) {
    && id in t.attempts && id in t.reservations && t.attempts[id].jobId in t.jobs
    && PlanIsCurrent(t.attempts[id], t.jobs[t.attempts[id].jobId], t.reservations[id], version, audit)
  }

  predicate HasMovedOn(t: Tables, w: Tables, id: string)
    requires id in t.attempts && id in t.reservations && t.attempts[id].jobId in t.jobs
    requires t.attempts.Keys == w.attempts.Keys && t.reservations.Keys == w.reservations.Keys
    requires t.jobs.Keys == w.jobs.Keys
  {
    var j := t.attempts[id].jobId;
    t.attempts[id] != w.attempts[id] || t.reservations[id] != w.reservations[id] || t.jobs[j] != w.jobs[j]
  }

  /** A plan whose Attempt, Job or reservation row has changed since it was made is refused, whatever ran in
      between, be it a plan for a terminal repair or for a reservation. */
  lemma StalePlanIsRefused(
    t: Tables, between: seq<Operation>, request: Evidence.TerminalCommit, audit: Audit)
    requires IsPlannedFrom(t, request.attemptId, request.expectedRowVersion, audit)
    ensures History(t, Run(t, between))
    ensures HasMovedOn(t, Run(t, between), request.attemptId) ==>
      && TerminalRepair(Run(t, between), request, audit).Refused?
      && ReservationRepair(Run(t, between), request.attemptId, request.expectedRowVersion, audit)
           == Refused(ReconciliationRequired)
  {
    RunIsHistory(t, between);
    var w, id := Run(t, between), request.attemptId;
    if HasMovedOn(t, w, id) {
      assert AttemptIsKept(t.attempts[id], w.attempts[id]) && ReservationIsKept(t.reservations[id], w.reservations[id]);
      ReservationRepairCommitsExactlyWhen(w, id, request.expectedRowVersion, audit);
      RepairCommitsExactlyWhen(w, request, audit);
    }
  }

  // ----- Artifacts -----

  /** The schema's uniqueness of (attempt, kind, path). */
  predicate PathsAreUnique(artifacts: Artifacts) {
    forall a, b | a in artifacts && b in artifacts && artifacts[a].attemptId == artifacts[b].attemptId
      && artifacts[a].registration.kind == artifacts[b].registration.kind
      && artifacts[a].registration.relativePath == artifacts[b].registration.relativePath :: a == b
  }

  function Ids(entries: seq<Evidence.Registration>): set<string> {
    set i | 0 <= i < |entries| :: entries[i].artifactId
  }

  /** Registering adds exactly the listed artifacts, under distinct ids, and touches no other row. */
  lemma {:induction false} RegisteredExactly(
    artifacts: Artifacts, jobId: string, id: string, entries: seq<Evidence.Registration>, at: nat, after: Artifacts)
    requires Register(artifacts, jobId, id, entries, at) == Done(after)
    ensures after.Keys == artifacts.Keys + Ids(entries)
    ensures forall a | a in artifacts :: after[a] == artifacts[a]
    ensures forall i | 0 <= i < |entries| ::
      entries[i].artifactId !in artifacts && after[entries[i].artifactId] == Artifact(jobId, id, entries[i], at)
    ensures forall i, k | 0 <= i < k < |entries| :: entries[i].artifactId != entries[k].artifactId
    ensures PathsAreUnique(artifacts) ==> PathsAreUnique(after)
    decreases |entries|
  {
    if entries != [] {
      var rest := entries[1..];
      var next := artifacts[entries[0].artifactId := Artifact(jobId, id, entries[0], at)];
      RegisteredExactly(next, jobId, id, rest, at, after);
      assert Ids(entries) == {entries[0].artifactId} + Ids(rest) by { IdsSplit(entries); }
      forall i | 0 <= i < |entries|
        ensures entries[i].artifactId !in artifacts
          && after[entries[i].artifactId] == Artifact(jobId, id, entries[i], at)
      {
        if i == 0 { assert entries[0].artifactId in next; } else { assert entries[i] == rest[i - 1]; }
      }
      forall i, k | 0 <= i < k < |entries| ensures entries[i].artifactId != entries[k].artifactId {
        assert entries[k] == rest[k - 1];
        if i > 0 { assert entries[i] == rest[i - 1]; } else { assert entries[0].artifactId in next; }
      }
    }
  }

  lemma IdsSplit(entries: seq<Evidence.Registration>)
    requires entries != []
    ensures Ids(entries) == {entries[0].artifactId} + Ids(entries[1..])
  {
    var rest := entries[1..];
    forall x | x in Ids(entries) ensures x in {entries[0].artifactId} + Ids(rest) {
      var i :| 0 <= i < |entries| && entries[i].artifactId == x;
      if i > 0 { assert rest[i - 1] == entries[i]; }
    }
    forall x | x in Ids(rest) ensures x in Ids(entries) {
      var i :| 0 <= i < |rest| && rest[i].artifactId == x;
      assert entries[i + 1] == rest[i];
    }
  }

  // ----- Reports over a run -----

  lemma ReportsAfterMove(t: Tables, u: Tables, id: string, v: Violation)
    requires IsMoveOf(t, u, id)
    ensures Reported(u, v) ==> Reported(t, v)
    ensures (v.TerminalAttemptHoldsReservation? || v.OrphanReservationNotHeld?) && v.attemptId == id ==> !Reported(u, v)
  {
    if v.JobResolutionAttemptStateMismatch? { LatestIsKept(t, u, v.jobId, v.attemptId); }
  }

  /** Every terminal repair of the list is about the latest Attempt of its Job. */
  predicate RepairsLatest(t: Tables, operations: seq<Operation>) {
    forall i | 0 <= i < |operations| && operations[i].Terminal? ::
      operations[i].request.attemptId in t.attempts ==> !HasNewer(t, operations[i].request.attemptId)
  }

  lemma RepairsLatestIsKept(t: Tables, u: Tables, operations: seq<Operation>)
    requires SameNumbering(t, u) && RepairsLatest(t, operations)
    ensures RepairsLatest(u, operations)
  {
    forall i | 0 <= i < |operations| && operations[i].Terminal? && operations[i].request.attemptId in u.attempts
      ensures !HasNewer(u, operations[i].request.attemptId)
    {
      var id := operations[i].request.attemptId;
      LatestIsKept(t, u, t.attempts[id].jobId, id);
    }
  }

  lemma StepAddsNoReport(t: Tables, u: Tables, operation: Operation, v: Violation)
    requires Perform(t, operation) == Done(u) && NumbersAreUnique(t)
    requires operation.Terminal? && operation.request.attemptId in t.attempts ==>
      !HasNewer(t, operation.request.attemptId)
    ensures Reported(u, v) ==> Reported(t, v)
  {
    CommittedOperation(t, u, operation);
    match operation {
      case Terminal(request, audit) => RepairOfLatestIsClean(t, u, request, audit);
      case Reserve(id, _, _) => ReportsAfterMove(t, u, id, v);
      case Converge(id, _) => ReportsAfterMove(t, u, id, v);
    }
  }

  /** Over every run that repairs only latest Attempts, no invariant query ever returns a new row. */
  lemma {:induction false} RunAddsNoReport(t: Tables, operations: seq<Operation>, v: Violation)
    requires NumbersAreUnique(t) && RepairsLatest(t, operations)
    ensures Reported(Run(t, operations), v) ==> Reported(t, v)
    decreases |operations|
  {
    if operations != [] {
      StepIsHistory(t, operations[0]);
      match Perform(t, operations[0]) {
        case Done(u) =>
          RepairsLatestIsKept(t, u, operations);
          RunAddsNoReport(u, operations[1..], v);
          StepAddsNoReport(t, u, operations[0], v);
        case Refused(_) =>
          RunAddsNoReport(t, operations[1..], v);
      }
    }
  }
}
