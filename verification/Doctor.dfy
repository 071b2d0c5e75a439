/** The Doctor's proposals, which must agree with the repair transactions written separately. */
module Doctor {
  import opened Types
  import opened Registry
  import EnvFile
  import Evidence
  import RepairRuns

  datatype Proposal = NoRepairNeeded | ReleaseTerminalReservation
    | RecoverRunnerResult(terminal: Evidence.TerminalCommit) | ManualReview(reasons: seq<string>)

  /** The functions and files that the Doctor looks at besides the tables. */
  datatype Surroundings = Surroundings(sha: Evidence.Sha, textSha: string -> string, bundle: Evidence.Bundle)

  function SubjectOf(id: string, attempt: Attempt): Evidence.Subject {
    Evidence.Subject(id, attempt.jobId, attempt.launchTokenDigest, attempt.state, attempt.intent, attempt.rowVersion)
  }

  function ReservationTarget(state: AttemptState): ReservationState {
    if state == Orphaned then HeldOrphaned else Released
  }

  function ReasonIf(condition: bool, reason: string): seq<string> {
    if condition then [reason] else []
  }

  function ReasonsToAsk(job: Job, attempt: Attempt): seq<string> {
    ReasonIf(!IsTerminal(attempt.state), "Attempt is not terminal")
    + ReasonIf(attempt.outcome.resultDigest.None?, "terminal result digest is missing")
    + ReasonIf(attempt.outcome.finishedAtMs.None?, "terminal finish time is missing")
    + ReasonIf(job.resolution != ResolutionFor(attempt.state), "Job resolution does not match Attempt state")
    + ReasonIf(job.current.Some?, "resolved Job still retains current_attempt_id")
    + ["Runner result bundle is absent"]
  }

  predicate Matches(job: Job, attempt: Attempt, terminal: Evidence.TerminalCommit) {
    && attempt.state == terminal.state
    && attempt.outcome.resultDigest == Some(terminal.resultDigest)
    && attempt.outcome.finishedAtMs == Some(terminal.finishedAtMs)
    && attempt.outcome.exitCode == terminal.exitCode
    && job.resolution == ResolutionFor(terminal.state)
    && job.current.None?
  }

  /** The proposal, given what importing the bundle came to when there is one. */
  function ProposeRepair(
    imported: Option<Evidence.Result<Evidence.TerminalCommit>>, job: Job, attempt: Attempt, reservation: Reservation
  ): Proposal
  {
    match imported
    case Some(Err(error)) => ManualReview([error])
    case Some(Ok(terminal)) =>
      if !Matches(job, attempt, terminal) then RecoverRunnerResult(terminal)
      else if reservation.state == ReservationTarget(terminal.state) then NoRepairNeeded
      else ReleaseTerminalReservation
    case None =>
      if !EvidenceComplete(attempt, job) then ManualReview(ReasonsToAsk(job, attempt))
      else if reservation.state == ReservationTarget(attempt.state) then NoRepairNeeded
      else ReleaseTerminalReservation
  }

  predicate HasCase(t: Tables, id: string) {
    id in t.attempts && id in t.reservations && t.attempts[id].jobId in t.jobs
  }

  function Import(t: Tables, s: Surroundings, id: string): Evidence.Result<Evidence.TerminalCommit>
    requires id in t.attempts
  {
    Evidence.PrepareRunnerTerminal(s.sha, s.textSha, SubjectOf(id, t.attempts[id]), s.bundle)
  }

  /** What an import promises, and that a later import of the same bundle says the same. */
  predicate Agrees(first: Evidence.Result<Evidence.TerminalCommit>, second: Evidence.Result<Evidence.TerminalCommit>) {
    match (first, second)
    case (Err(_), Err(_)) => true
    case (Ok(a), Ok(b)) =>
      IsRunnerTerminal(a.state) && a.state == b.state && a.resultDigest == b.resultDigest
      && a.exitCode == b.exitCode && a.finishedAtMs == b.finishedAtMs
    case _ => false
  }

  lemma ImportIsStable(t: Tables, u: Tables, s: Surroundings, id: string)
    requires id in t.attempts && id in u.attempts
    requires t.attempts[id].jobId == u.attempts[id].jobId
      && t.attempts[id].launchTokenDigest == u.attempts[id].launchTokenDigest
    ensures Agrees(Import(t, s, id), Import(u, s, id))
    ensures var r := Import(t, s, id); r.Ok? ==>
      r.value.attemptId == id && r.value.expectedRowVersion == t.attempts[id].rowVersion
  {
    Evidence.TerminalIsAFunctionOfTheBundle(s.sha, s.textSha, SubjectOf(id, t.attempts[id]),
      SubjectOf(id, u.attempts[id]), s.bundle);
  }

  /** The Doctor's proposal for one Attempt of the tables. */
  function Propose(t: Tables, s: Surroundings, id: string, resultPresent: bool): Proposal
    requires HasCase(t, id)
  {
    ProposeRepair(if resultPresent then Some(Import(t, s, id)) else None,
                  t.jobs[t.attempts[id].jobId], t.attempts[id], t.reservations[id])
  }

  /** The committed request carries what was proposed; only the artifact list may have been extended. */
  predicate Carries(request: Evidence.TerminalCommit, terminal: Evidence.TerminalCommit) {
    request.(artifacts := []) == terminal.(artifacts := [])
  }

  /** The plan was made from these very rows. */
  predicate PlansFrom(t: Tables, id: string, audit: Audit)
    requires HasCase(t, id)
  {
    var job := t.jobs[t.attempts[id].jobId];
    && audit.expectedJobRowVersion == job.rowVersion
    && audit.expectedCurrent == job.current
    && audit.expectedReservation == t.reservations[id].state
  }

  lemma RecoveredRowsMatch(
    t: Tables, u: Tables, request: Evidence.TerminalCommit, audit: Audit,
    later: Option<Evidence.Result<Evidence.TerminalCommit>>)
    requires RepairRuns.IsRepairOf(t, u, request, audit) && request.state != Orphaned
    requires later.Some? ==> Agrees(Evidence.Ok(request), later.value)
    ensures HasCase(u, request.attemptId)
    ensures var a := u.attempts[request.attemptId];
      ProposeRepair(later, u.jobs[a.jobId], a, u.reservations[request.attemptId]) == NoRepairNeeded
  {
  }

  /** A recovery that the Doctor proposed and that commits needs no second look, whether or not
      the bundle is still there. */
  lemma RecoveryConverges(
    t: Tables, u: Tables, s: Surroundings, request: Evidence.TerminalCommit, audit: Audit, stillPresent: bool)
    requires HasCase(t, request.attemptId)
    requires var p := Propose(t, s, request.attemptId, true); p.RecoverRunnerResult? && Carries(request, p.terminal)
    requires TerminalRepair(t, request, audit) == Done(u)
    ensures HasCase(u, request.attemptId)
    ensures Propose(u, s, request.attemptId, stillPresent) == NoRepairNeeded
  {
    RepairRuns.CommittedRepair(t, u, request, audit);
    var id := request.attemptId;
    ImportIsStable(t, u, s, id);
    RecoveredRowsMatch(t, u, request, audit, if stillPresent then Some(Import(u, s, id)) else None);
  }

  /** With the rows unchanged, a proposed recovery is refused exactly when the Attempt is not lost or
      orphaned, or the Job was resolved differently, or an artifact is malformed or already registered. */
  lemma RecoveryIsRefusedExactlyWhen(t: Tables, s: Surroundings, request: Evidence.TerminalCommit, audit: Audit)
    requires HasCase(t, request.attemptId) && PlansFrom(t, request.attemptId, audit)
    requires var p := Propose(t, s, request.attemptId, true); p.RecoverRunnerResult? && Carries(request, p.terminal)
    ensures var attempt := t.attempts[request.attemptId];
      TerminalRepair(t, request, audit).Refused? <==>
        || !IsWellFormed(request)
        || (attempt.state != Lost && attempt.state != Orphaned)
        || t.jobs[attempt.jobId].resolution != ResolutionFor(attempt.state)
        || Register(t.artifacts, attempt.jobId, request.attemptId, request.artifacts, request.finishedAtMs).Refused?
  {
    ImportIsStable(t, t, s, request.attemptId);
    RepairRuns.RepairCommitsExactlyWhen(t, request, audit);
  }

  /** What makes the Doctor propose a reservation move. */
  lemma ReservationProposal(t: Tables, s: Surroundings, id: string, resultPresent: bool)
    requires HasCase(t, id) && Propose(t, s, id, resultPresent) == ReleaseTerminalReservation
    ensures var attempt := t.attempts[id];
      && EvidenceComplete(attempt, t.jobs[attempt.jobId])
      && t.reservations[id].state != ReservationTarget(attempt.state)
      && (resultPresent ==> IsRunnerTerminal(attempt.state))
  {
    ImportIsStable(t, t, s, id);
  }

  /** With the rows unchanged, a proposed reservation move is refused exactly for an orphaned Attempt
      whose reservation is already released. */
  lemma ReservationMoveIsRefusedExactlyWhen(t: Tables, s: Surroundings, id: string, resultPresent: bool, audit: Audit)
    requires HasCase(t, id) && PlansFrom(t, id, audit)
    requires Propose(t, s, id, resultPresent) == ReleaseTerminalReservation
    ensures ReservationRepair(t, id, t.attempts[id].rowVersion, audit).Refused? <==>
            t.attempts[id].state == Orphaned && t.reservations[id].state == Released
  {
    ReservationProposal(t, s, id, resultPresent);
  }

  /** A reservation move that the Doctor proposed and that commits needs no second look. */
  lemma ReservationMoveConverges(
    t: Tables, u: Tables, s: Surroundings, id: string, resultPresent: bool, version: nat, audit: Audit)
    requires HasCase(t, id) && Propose(t, s, id, resultPresent) == ReleaseTerminalReservation
    requires ReservationRepair(t, id, version, audit) == Done(u)
    ensures HasCase(u, id) && Propose(u, s, id, resultPresent) == NoRepairNeeded
  {
    RepairRuns.CommittedOperation(t, u, Reserve(id, version, audit));
    ReservationProposal(t, s, id, resultPresent);
  }

  /** Finalizing a lost Attempt settles it for a Doctor that finds no result bundle; a bundle that
      cannot be imported keeps asking for review. */
  lemma FinalizingLost(t: Tables, u: Tables, s: Surroundings, request: Evidence.TerminalCommit, audit: Audit)
    requires TerminalRepair(t, request, audit) == Done(u) && request.state == Lost
    ensures HasCase(t, request.attemptId) && HasCase(u, request.attemptId)
    ensures Propose(u, s, request.attemptId, false) == NoRepairNeeded
    ensures Propose(t, s, request.attemptId, true).ManualReview? <==>
      Propose(u, s, request.attemptId, true).ManualReview?
  {
    RepairRuns.CommittedRepair(t, u, request, audit);
    ImportIsStable(t, u, s, request.attemptId);
    RecoveredRowsMatch(t, u, request, audit, None);
  }

  /** On tables where no invariant query returns a row, the Doctor never proposes a reservation move. */
  lemma SoundTablesNeedNoMove(t: Tables, s: Surroundings, id: string, resultPresent: bool)
    requires HasCase(t, id) && IsSound(t)
    ensures Propose(t, s, id, resultPresent) != ReleaseTerminalReservation
  {
    assert AttemptIsSound(t, id);
    if Propose(t, s, id, resultPresent) == ReleaseTerminalReservation {
      ReservationProposal(t, s, id, resultPresent);
    }
  }

  /** The Doctor has nothing to propose exactly when the Attempt ended with complete evidence and a fitting
      reservation, and what the bundle says, if there is one, is what the rows say. */
  lemma NothingToRepairExactlyWhen(t: Tables, s: Surroundings, id: string, resultPresent: bool)
    requires HasCase(t, id)
    ensures Propose(t, s, id, resultPresent) == NoRepairNeeded <==>
      && EvidenceComplete(t.attempts[id], t.jobs[t.attempts[id].jobId]) && AttemptIsSound(t, id)
      && (resultPresent ==>
            var r := Import(t, s, id);
            && r.Ok? && t.attempts[id].state == r.value.state
            && t.attempts[id].outcome.resultDigest == Some(r.value.resultDigest)
            && t.attempts[id].outcome.finishedAtMs == Some(r.value.finishedAtMs)
            && t.attempts[id].outcome.exitCode == r.value.exitCode)
  {
    ImportIsStable(t, t, s, id);
  }

  /** The Doctor and the invariant queries agree: where it has nothing to propose for a Job's latest Attempt,
      no query reports that Job or Attempt. */
  lemma NothingToRepairMeansNoReport(t: Tables, s: Surroundings, id: string, resultPresent: bool, v: Violation)
    requires HasCase(t, id) && RepairRuns.NumbersAreUnique(t) && !HasNewer(t, id)
    requires Propose(t, s, id, resultPresent) == NoRepairNeeded && Reported(t, v)
    ensures !RepairRuns.Concerns(v, t.attempts[id].jobId, id)
  {
    NothingToRepairExactlyWhen(t, s, id, resultPresent);
    var job := t.attempts[id].jobId;
    forall a | RepairRuns.IsLatest(t, job, a) ensures a == id { RepairRuns.LatestIsUnique(t, job, id, a); }
    assert JobIsSound(t, job);
  }

  /** And back: on tables without reports the latest Attempt of a resolved Job needs nothing. */
  lemma SoundLatestNeedsNothing(t: Tables, s: Surroundings, id: string)
    requires HasCase(t, id) && IsSound(t) && !HasNewer(t, id) && t.jobs[t.attempts[id].jobId].resolution.Some?
    ensures Propose(t, s, id, false) == NoRepairNeeded
  {
    assert JobIsSound(t, t.attempts[id].jobId) && AttemptIsSound(t, id);
    NothingToRepairExactlyWhen(t, s, id, false);
  }

  /** A reservation move is proposed exactly when the Attempt ended with complete evidence, the rows say what the
      bundle says if there is one, and one of the two reservation queries reports the Attempt. */
  lemma MoveIsProposedExactlyWhen(t: Tables, s: Surroundings, id: string, resultPresent: bool)
    requires HasCase(t, id)
    ensures var attempt := t.attempts[id];
      var job := t.jobs[attempt.jobId];
      Propose(t, s, id, resultPresent) == ReleaseTerminalReservation <==>
        && EvidenceComplete(attempt, job)
        && (resultPresent ==> var r := Import(t, s, id); r.Ok? && Matches(job, attempt, r.value))
        && (|| Reported(t, TerminalAttemptHoldsReservation(attempt.jobId, id))
            || Reported(t, OrphanReservationNotHeld(attempt.jobId, id)))
  {
    ImportIsStable(t, t, s, id);
  }

  /** A recovery is proposed exactly when there is a bundle that imports and the rows do not say what it says. */
  lemma RecoveryIsProposedExactlyWhen(
    t: Tables, s: Surroundings, id: string, resultPresent: bool, terminal: Evidence.TerminalCommit)
    requires HasCase(t, id)
    ensures Propose(t, s, id, resultPresent) == RecoverRunnerResult(terminal) <==>
      && resultPresent && Import(t, s, id) == Evidence.Ok(terminal)
      && !Matches(t.jobs[t.attempts[id].jobId], t.attempts[id], terminal)
  {
  }

  /** Without a bundle every gap is named, and no other. */
  lemma ReasonsNameTheGaps(job: Job, attempt: Attempt)
    ensures var reasons := ReasonsToAsk(job, attempt);
      && ("Attempt is not terminal" in reasons <==> !IsTerminal(attempt.state))
      && ("terminal result digest is missing" in reasons <==> attempt.outcome.resultDigest.None?)
      && ("terminal finish time is missing" in reasons <==> attempt.outcome.finishedAtMs.None?)
      && ("Job resolution does not match Attempt state" in reasons <==> job.resolution != ResolutionFor(attempt.state))
      && ("resolved Job still retains current_attempt_id" in reasons <==> job.current.Some?)
      && "Runner result bundle is absent" in reasons
  {
    ReasonIsOneOf(job, attempt, "Attempt is not terminal");
    ReasonIsOneOf(job, attempt, "terminal result digest is missing");
    ReasonIsOneOf(job, attempt, "terminal finish time is missing");
    ReasonIsOneOf(job, attempt, "Job resolution does not match Attempt state");
    ReasonIsOneOf(job, attempt, "resolved Job still retains current_attempt_id");
    ReasonIsOneOf(job, attempt, "Runner result bundle is absent");
  }

  /** The lengths of the six reasons tell them apart. */
  lemma ReasonIsOneOf(job: Job, attempt: Attempt, reason: string)
    ensures reason in ReasonsToAsk(job, attempt) ==> |reason| in {23, 33, 31, 43, 45, 30}
    ensures reason in ReasonsToAsk(job, attempt) <==>
      || (!IsTerminal(attempt.state) && reason == "Attempt is not terminal")
      || (attempt.outcome.resultDigest.None? && reason == "terminal result digest is missing")
      || (attempt.outcome.finishedAtMs.None? && reason == "terminal finish time is missing")
      || (job.resolution != ResolutionFor(attempt.state) && reason == "Job resolution does not match Attempt state")
      || (job.current.Some? && reason == "resolved Job still retains current_attempt_id")
      || reason == "Runner result bundle is absent"
  {
  }

  /** Review is asked for in exactly the remaining cases: a bundle that does not import, or none and evidence that
      is not complete. */
  lemma ReviewIsAskedForExactlyWhen(t: Tables, s: Surroundings, id: string, resultPresent: bool)
    requires HasCase(t, id)
    ensures var attempt := t.attempts[id];
      var job := t.jobs[attempt.jobId];
      var proposal := Propose(t, s, id, resultPresent);
      && (proposal.ManualReview? <==>
            if resultPresent then Import(t, s, id).Err? else !EvidenceComplete(attempt, job))
      && (proposal.ManualReview? && resultPresent ==> proposal.reasons == [Import(t, s, id).error])
      && (proposal.ManualReview? && !resultPresent ==> proposal.reasons == ReasonsToAsk(job, attempt))
  {
  }

  // ----- What an import asks to commit is well formed -----

  lemma {:induction false} LengthOfJoin(a: string, b: string)
    ensures Utf8Length(a + b) == Utf8Length(a) + Utf8Length(b)
  {
    if a == [] {
      assert a + b == b;
    } else {
      LengthOfJoin(a[1..], b);
      assert (a + b)[1..] == a[1..] + b;
    }
  }

  lemma {:induction false} LengthOfAscii(a: string)
    requires forall i :: 0 <= i < |a| ==> ' ' < a[i] < '\U{7F}'
    ensures Utf8Length(a) == |a| && (a != [] && |a| <= 256 ==> IsIdentifier(a))
  {
    if a != [] {
      LengthOfAscii(a[1..]);
      assert !EnvFile.IsSpace(a[0]);
    }
  }

  /** An identifier with one of the three suffixes is one exactly when what is before it is short enough and has
      no control character. */
  lemma SuffixedIdentifier(id: string, suffix: string)
    requires suffix == ".stdout" || suffix == ".stderr" || suffix == ".result"
    ensures IsIdentifier(id + suffix) <==> Utf8Length(id) <= 249 && forall c | c in id :: !IsControl(c)
  {
    var whole := id + suffix;
    LengthOfAscii(suffix);
    LengthOfJoin(id, suffix);
    assert whole[|id|] == '.' && !EnvFile.IsSpace('.');
    assert forall i | 0 <= i < |id| :: whole[i] == id[i];
    assert forall i | |id| <= i < |whole| :: whole[i] == suffix[i - |id|];
    if IsIdentifier(whole) {
      forall c | c in id ensures !IsControl(c) {
        var i :| 0 <= i < |id| && id[i] == c;
        assert whole[i] == c;
      }
    }
  }

  /** One of the three files that an import registers. */
  predicate IsBundleFile(kind: string, path: string) {
    || (kind == "stdout" && path == "stdout.log")
    || (kind == "stderr" && path == "stderr.log")
    || (kind == "execution_result" && path == "result.json")
  }

  lemma BundleFileIsRegistrable(artifact: Evidence.Registration)
    requires IsBundleFile(artifact.kind, artifact.relativePath) && IsSha256Digest(artifact.digest)
    ensures IsRegistrable(artifact) <==> IsIdentifier(artifact.artifactId)
  {
    LengthOfAscii(artifact.kind);
    BundlePathIsInside(artifact.kind, artifact.relativePath);
  }

  lemma BundlePathIsInside(kind: string, path: string)
    requires IsBundleFile(kind, path)
    ensures path != "" && path[0] != '/' && !HasParentSegment(path)
  {
    assert path[0] == 's' || path[0] == 'r';
    assert forall i | 0 <= i < |path| :: path[i] == '.' ==> i == 6;
  }

  /** The request names the three files of a bundle, under the id with their suffixes. */
  predicate IsBundleOf(artifacts: seq<Evidence.Registration>, id: string) {
    && |artifacts| == 3
    && artifacts[0].artifactId == id + ".stdout" && artifacts[1].artifactId == id + ".stderr"
    && artifacts[2].artifactId == id + ".result"
    && forall i | 0 <= i < 3 ::
      IsBundleFile(artifacts[i].kind, artifacts[i].relativePath) && IsSha256Digest(artifacts[i].digest)
  }

  lemma BundleIsRegistrable(artifacts: seq<Evidence.Registration>, id: string)
    requires IsBundleOf(artifacts, id)
    ensures (forall i :: 0 <= i < |artifacts| ==> IsRegistrable(artifacts[i]))
       <==> Utf8Length(id) <= 249 && forall c | c in id :: !IsControl(c)
  {
    SuffixedIdentifier(id, ".stdout");
    SuffixedIdentifier(id, ".stderr");
    SuffixedIdentifier(id, ".result");
    BundleFileIsRegistrable(artifacts[0]);
    BundleFileIsRegistrable(artifacts[1]);
    BundleFileIsRegistrable(artifacts[2]);
  }

  lemma ImportIsBundle(t: Tables, s: Surroundings, id: string)
    requires id in t.attempts && Import(t, s, id).Ok? && forall b :: IsSha256Digest(s.sha(b))
    ensures IsSha256Digest(Import(t, s, id).value.resultDigest) && IsBundleOf(Import(t, s, id).value.artifacts, id)
  {
    Evidence.ImportAcceptsExactlyWhen(s.sha, s.textSha, SubjectOf(id, t.attempts[id]), s.bundle);
  }

  /** The Doctor's own request passes the repair's field checks exactly when the Attempt's id has no control
      character and at most 249 bytes, as every id that admission makes up has. */
  lemma ImportIsWellFormedExactlyWhen(t: Tables, s: Surroundings, id: string)
    requires id in t.attempts && Import(t, s, id).Ok? && forall b :: IsSha256Digest(s.sha(b))
    ensures IsWellFormed(Import(t, s, id).value) <==> Utf8Length(id) <= 249 && forall c | c in id :: !IsControl(c)
  {
    ImportIsBundle(t, s, id);
    BundleIsRegistrable(Import(t, s, id).value.artifacts, id);
  }
}
