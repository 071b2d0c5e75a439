/** What a caller is told about a Job. */
module Projection {
  import opened Types
  import opened Registry
  import opened EventLog
  import RepairRuns
  import Evidence

  datatype Delivery = InProgress | ReconciliationNeeded | Unknown | Committed

  datatype JobProjection = JobProjection(
    status: string, attemptState: Option<AttemptState>, executionTerminal: bool,
    delivery: Delivery, recoveryRequired: bool, pollAfterMs: Option<nat>)

  function StateName(state: AttemptState): string {
    match state
    case Accepted => "accepted"
    case Starting => "starting"
    case Running => "running"
    case Stopping => "stopping"
    case Recovering => "recovering"
    case Succeeded => "succeeded"
    case Failed => "failed"
    case TimedOut => "timed_out"
    case Cancelled => "cancelled"
    case Lost => "lost"
    case Orphaned => "orphaned"
  }

  function ResolutionName(resolution: Resolution): string {
    match resolution
    case ToSucceeded => "succeeded"
    case ToFailed => "failed"
    case ToTimedOut => "timed_out"
    case ToCancelled => "cancelled"
    case ToLost => "lost"
    case ToOrphaned => "orphaned"
  }

  /** The status words that stand for an ended Job. */
  predicate IsTerminalWord(status: string) {
    status == "succeeded" || status == "failed" || status == "timed_out" || status == "cancelled" || status == "lost"
      || status == "orphaned"
  }

  function Status(job: Job, attempt: Option<Attempt>): string {
    match (job.resolution, attempt)
    case (Some(resolution), _) => ResolutionName(resolution)
    case (None, None) => "unknown"
    case (None, Some(a)) =>
      if a.state == Accepted || a.state == Starting then "queued"
      else if a.state == Running || a.state == Stopping || a.state == Recovering then "working"
      else StateName(a.state)
  }

  /** The recovery column is set. */
  predicate IsFlagged(attempt: Attempt) {
    attempt.recovery.Some? && attempt.recovery.value.required
  }

  function Project(job: Job, attempt: Option<Attempt>): JobProjection {
    var flagged := attempt.Some? && IsFlagged(attempt.value);
    var recoveryRequired := flagged
      || (attempt.Some? && (attempt.value.state == Recovering || attempt.value.state == Orphaned));
    var delivery :=
      if recoveryRequired then ReconciliationNeeded
      else match job.resolution
        case None => InProgress
        case Some(ToOrphaned) => ReconciliationNeeded
        case Some(ToLost) => Unknown
        case Some(_) => Committed;
    JobProjection(
      Status(job, attempt), if attempt.Some? then Some(attempt.value.state) else None, job.resolution.Some?,
      delivery, recoveryRequired, if delivery == InProgress || delivery == ReconciliationNeeded then Some(250)
        else None)
  }

  /** The Attempt that a snapshot of the Job shows: the current one, else the one with the highest number. */
  predicate IsSnapshotAttempt(t: Tables, jobId: string, attempt: Option<string>)
    requires jobId in t.jobs
  {
    match (t.jobs[jobId].current, attempt)
    case (Some(current), Some(a)) => a == current && a in t.attempts
    case (Some(_), None) => false
    case (None, Some(a)) => RepairRuns.IsLatest(t, jobId, a)
    case (None, None) => forall a | a in t.attempts :: t.attempts[a].jobId != jobId
  }

  function ProjectionOf(t: Tables, jobId: string, attempt: Option<string>): JobProjection
    requires jobId in t.jobs && IsSnapshotAttempt(t, jobId, attempt)
  {
    Project(t.jobs[jobId], if attempt.Some? then Some(t.attempts[attempt.value]) else None)
  }

  /** Every reference from a Job to its current Attempt resolves. */
  predicate CurrentResolves(t: Tables) {
    forall j | j in t.jobs :: t.jobs[j].current.Some? ==> t.jobs[j].current.value in t.attempts
  }

  /** A Job with Attempts has a latest one: the query for it cannot come back empty. */
  lemma {:induction false} LatestExists(t: Tables, jobId: string, seen: set<string>, best: string)
    requires best in t.attempts && t.attempts[best].jobId == jobId
    requires seen <= t.attempts.Keys
    requires forall a | a in seen && t.attempts[a].jobId == jobId :: t.attempts[a].number <= t.attempts[best].number
    ensures exists l :: RepairRuns.IsLatest(t, jobId, l)
    decreases |t.attempts.Keys - seen|
  {
    var rest := t.attempts.Keys - seen;
    if rest == {} {
      assert seen == t.attempts.Keys;
      assert RepairRuns.IsLatest(t, jobId, best);
    } else {
      var a :| a in rest;
      assert t.attempts.Keys - (seen + {a}) == rest - {a};
      var better := if t.attempts[a].jobId == jobId && t.attempts[a].number > t.attempts[best].number then a else best;
      LatestExists(t, jobId, seen + {a}, better);
    }
  }

  /** Under the schema a Job has one snapshot and only one. */
  lemma SnapshotIsDetermined(t: Tables, jobId: string)
    requires jobId in t.jobs && CurrentResolves(t) && RepairRuns.NumbersAreUnique(t)
    ensures exists attempt :: IsSnapshotAttempt(t, jobId, attempt)
    ensures forall x, y | IsSnapshotAttempt(t, jobId, x) && IsSnapshotAttempt(t, jobId, y) :: x == y
  {
    match t.jobs[jobId].current {
      case Some(current) => assert IsSnapshotAttempt(t, jobId, Some(current));
      case None =>
        if a :| a in t.attempts && t.attempts[a].jobId == jobId {
          LatestExists(t, jobId, {}, a);
          var l :| RepairRuns.IsLatest(t, jobId, l);
          assert IsSnapshotAttempt(t, jobId, Some(l));
        } else {
          assert IsSnapshotAttempt(t, jobId, None);
        }
    }
  }

  lemma NamesAgree(state: AttemptState)
    ensures IsTerminal(state) <==> ResolutionFor(state).Some?
    ensures IsTerminal(state) <==> IsTerminalWord(StateName(state))
    ensures IsTerminal(state) ==> ResolutionName(ResolutionFor(state).value) == StateName(state)
  {
  }

  /** On tables where no invariant query returns a row, the shown Attempt and the Job agree. */
  lemma SoundSnapshot(t: Tables, jobId: string, attempt: string)
    requires IsSound(t) && jobId in t.jobs && IsSnapshotAttempt(t, jobId, Some(attempt))
    ensures t.jobs[jobId].resolution == ResolutionFor(t.attempts[attempt].state)
  {
    assert JobIsSound(t, jobId);
    NamesAgree(t.attempts[attempt].state);
  }

  /** On tables where no invariant query returns a row, the projection of every Job that shows an Attempt is
      truthful: terminal exactly when resolved and then named after the latest Attempt, and Committed exactly
      when that Attempt reached a Runner-terminal state with no recovery flag. */
  lemma ProjectionIsTruthful(t: Tables, jobId: string, attempt: string)
    requires IsSound(t) && jobId in t.jobs && IsSnapshotAttempt(t, jobId, Some(attempt))
    ensures var p, shown := ProjectionOf(t, jobId, Some(attempt)), t.attempts[attempt];
      && (IsTerminalWord(p.status) <==> t.jobs[jobId].resolution.Some?)
      && (p.executionTerminal <==> IsTerminal(shown.state))
      && (IsTerminalWord(p.status) ==> RepairRuns.IsLatest(t, jobId, attempt) && p.status == StateName(shown.state))
      && (p.delivery == Committed <==> IsRunnerTerminal(shown.state) && !IsFlagged(shown))
      && (shown.state == Lost || shown.state == Orphaned ==> p.delivery != Committed)
      && (shown.state == Orphaned ==> p.delivery == ReconciliationNeeded)
      && (p.delivery == InProgress <==> !IsTerminal(shown.state) && !p.recoveryRequired)
      && (p.delivery == Unknown <==> shown.state == Lost && !p.recoveryRequired)
      && (p.recoveryRequired <==> IsFlagged(shown) || shown.state == Recovering || shown.state == Orphaned)
      && p.pollAfterMs == (if p.delivery == Committed || p.delivery == Unknown then None else Some(250))
      && p.attemptState == Some(shown.state)
      && (p.status == "queued" <==> shown.state == Accepted || shown.state == Starting)
      && (p.status == "working" <==> shown.state == Running || shown.state == Stopping || shown.state == Recovering)
  {
    SoundSnapshot(t, jobId, attempt);
    NamesAgree(t.attempts[attempt].state);
    assert JobIsSound(t, jobId);
  }

  /** What callers see after a committed repair of a Job's latest Attempt: the repaired state, delivered
      unless it is lost, and no recovery left to ask for. */
  lemma RepairIsDelivered(t: Tables, u: Tables, request: Evidence.TerminalCommit, audit: Audit)
    requires TerminalRepair(t, request, audit) == Done(u) && !HasNewer(t, request.attemptId)
    ensures var jobId := t.attempts[request.attemptId].jobId;
      && jobId in u.jobs && IsSnapshotAttempt(u, jobId, Some(request.attemptId))
      && var p := ProjectionOf(u, jobId, Some(request.attemptId));
      && p.status == StateName(request.state) && !p.recoveryRequired
      && p.delivery == if request.state == Lost then Unknown else Committed
  {
    RepairRuns.CommittedRepair(t, u, request, audit);
    RepairRuns.RepairKeepsNumbering(t, u, request, audit);
    RepairRuns.LatestIsKept(t, u, t.attempts[request.attemptId].jobId, request.attemptId);
    NamesAgree(request.state);
  }

  // ----- The reason shown with a resolved Job -----

  /** The events that say why a Job ended as it did. */
  predicate GivesReason(event: Event, jobId: string) {
    && event.jobId == jobId
    && (event.eventType == "JOB_TERMINAL" || event.eventType == "JOB_RESOLUTION_CORRECTED"
        || event.eventType == "JOB_RESOLUTION_ADMIN_CORRECTED"
        || (event.eventType == "STOP_REQUESTED" && event.next == Cancelled))
  }

  /** Of these the one with the highest number. */
  function LatestReason(events: seq<Event>, jobId: string): Option<Event> {
    if events == [] then None
    else
      var before := LatestReason(events[..|events| - 1], jobId);
      var event := events[|events| - 1];
      if GivesReason(event, jobId) && (before.None? || event.sequence > before.value.sequence) then Some(event)
      else before
  }

  function ExecutionReason(t: Tables, jobId: string): Option<string>
    requires jobId in t.jobs
  {
    var latest := LatestReason(t.events, jobId);
    if t.jobs[jobId].resolution.Some? && latest.Some? then Some(latest.value.reasonCode) else None
  }

  lemma {:induction false} LatestReasonIsHighest(events: seq<Event>, jobId: string)
    ensures var latest := LatestReason(events, jobId);
      && (latest.None? <==> forall e | e in events :: !GivesReason(e, jobId))
      && (latest.Some? ==>
            && latest.value in events && GivesReason(latest.value, jobId)
            && latest.value.sequence <= LastSequence(events, jobId)
            && forall e | e in events && GivesReason(e, jobId) :: e.sequence <= latest.value.sequence)
  {
    if events != [] {
      var init := events[..|events| - 1];
      assert events == init + [events[|events| - 1]];
      LatestReasonIsHighest(init, jobId);
    }
  }

  lemma ReasonAfterEvent(events: seq<Event>, event: Event, jobId: string)
    ensures LatestReason(WithEvent(events, event), jobId)
         == if GivesReason(event, jobId) then Some(event.(sequence := LastSequence(events, jobId) + 1))
            else LatestReason(events, jobId)
  {
    var longer := WithEvent(events, event);
    assert longer[..|longer| - 1] == events;
    LatestReasonIsHighest(events, jobId);
  }

  /** The reason given by the last repair that a run commits on an Attempt of the Job. */
  function RepairReason(t: Tables, operations: seq<Operation>, jobId: string): Option<string>
    decreases |operations|
  {
    if operations == [] then None
    else match Perform(t, operations[0])
      case Refused(_) => RepairReason(t, operations[1..], jobId)
      case Done(u) =>
        var later := RepairReason(u, operations[1..], jobId);
        if later.Some? then later else OwnReason(t, operations[0], jobId)
  }

  function OwnReason(t: Tables, operation: Operation, jobId: string): Option<string> {
    if operation.Terminal? && operation.request.attemptId in t.attempts
       && t.attempts[operation.request.attemptId].jobId == jobId then Some(operation.request.reasonCode) else None
  }

  lemma ReasonAfterStep(t: Tables, u: Tables, operation: Operation, jobId: string)
    requires jobId in t.jobs && Perform(t, operation) == Done(u)
    ensures jobId in u.jobs
    ensures ExecutionReason(u, jobId)
         == if OwnReason(t, operation, jobId).Some? then OwnReason(t, operation, jobId) else ExecutionReason(t, jobId)
  {
    if operation.Terminal? {
      ReasonAfterRepair(t, u, operation.request, operation.audit, jobId);
    } else {
      ReasonAfterMove(t, u, operation, jobId);
    }
  }

  lemma ReasonAfterRepair(t: Tables, u: Tables, request: Evidence.TerminalCommit, audit: Audit, jobId: string)
    requires jobId in t.jobs && TerminalRepair(t, request, audit) == Done(u)
    ensures jobId in u.jobs && request.attemptId in t.attempts
    ensures ExecutionReason(u, jobId)
         == if t.attempts[request.attemptId].jobId == jobId then Some(request.reasonCode)
            else ExecutionReason(t, jobId)
  {
    RepairRuns.CommittedRepair(t, u, request, audit);
    var attempt := t.attempts[request.attemptId];
    var first := Event(attempt.jobId, request.attemptId, 0, "ADMIN_TERMINAL_REPAIR",
                       attempt.state, request.state, request.reasonCode, audit.observedAtMs);
    ReasonAfterEvent(t.events, first, jobId);
    ReasonAfterEvent(WithEvent(t.events, first), first.(eventType := "JOB_RESOLUTION_ADMIN_CORRECTED"), jobId);
  }

  lemma ReasonAfterMove(t: Tables, u: Tables, operation: Operation, jobId: string)
    requires jobId in t.jobs && Perform(t, operation) == Done(u) && !operation.Terminal?
    ensures jobId in u.jobs && ExecutionReason(u, jobId) == ExecutionReason(t, jobId)
  {
    RepairRuns.CommittedOperation(t, u, operation);
    RepairRuns.MoveIsRecorded(t, u, operation);
    if u != t {
      ReasonAfterEvent(t.events, u.events[|t.events|], jobId);
      assert u.events == WithEvent(t.events, u.events[|t.events|]);
    }
  }

  /** Over every run of repairs, reservation moves and refusals: the reason shown with a Job is that of the last
      repair committed on one of its Attempts and, without one, what it was before. */
  lemma {:induction false} ReasonIsTheLastRepairs(t: Tables, operations: seq<Operation>, jobId: string)
    requires jobId in t.jobs
    ensures jobId in RepairRuns.Run(t, operations).jobs
    ensures ExecutionReason(RepairRuns.Run(t, operations), jobId)
         == if RepairReason(t, operations, jobId).Some? then RepairReason(t, operations, jobId)
            else ExecutionReason(t, jobId)
    decreases |operations|
  {
    if operations != [] {
      match Perform(t, operations[0]) {
        case Done(u) =>
          ReasonAfterStep(t, u, operations[0], jobId);
          ReasonIsTheLastRepairs(u, operations[1..], jobId);
        case Refused(_) => ReasonIsTheLastRepairs(t, operations[1..], jobId);
      }
    }
  }

  /** A Job without any Attempt escapes every query, and its projection says Committed
      although nothing ran: the only way a resolved Job's projection is not backed by an Attempt. */
  lemma NoAttemptNoBacking(t: Tables, jobId: string)
    requires IsSound(t) && jobId in t.jobs && IsSnapshotAttempt(t, jobId, None)
    ensures var p := ProjectionOf(t, jobId, None);
      && p.executionTerminal
      && (p.delivery == Committed <==>
        t.jobs[jobId].resolution != Some(ToLost) && t.jobs[jobId].resolution != Some(ToOrphaned))
      && (p.delivery == Unknown <==> t.jobs[jobId].resolution == Some(ToLost))
      && (p.delivery == ReconciliationNeeded <==> t.jobs[jobId].resolution == Some(ToOrphaned))
  {
    assert JobIsSound(t, jobId);
  }

  const HOLLOW := Tables(map["job" := Job(Some(ToSucceeded), None, 0)], map[], map[], [], map[])

  lemma CommittedWithoutAnAttempt()
    ensures IsSound(HOLLOW) && IsSnapshotAttempt(HOLLOW, "job", None)
    ensures ProjectionOf(HOLLOW, "job", None).delivery == Committed
  {
    assert "job" in HOLLOW.jobs;
  }
}
